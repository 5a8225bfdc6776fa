/** `getOtsuValues`: weight, mean and variance of one band `[start, limit)`
    of the histogram, computed exactly as `Otsu.java` slices and sums it. */
module Bands {
  import opened Wrappers
  import opened Vectors
  import opened Histograms

  /** `Range`: the band's first level and its exclusive limit. */
  datatype Range = Range(start: int, limit: int)

  /** The levels `copyOfRange` takes from a band: `start` up to, not
      including, `limit`. */
  predicate Covers(range: Range, v: int)
  {
    range.start <= v < range.limit
  }

  /** `OtsuValues`. The weight is a pixel count, not a probability. An empty
      band has no mean (`None`; Java divides 0 by 0 and keeps the NaN). */
  datatype OtsuValues = OtsuValues(weight: real, mean: Option<real>, variance: real)

  /** The `values` array of `getOtsuMatrix`, `IntStream.range(0, 256)`:
      level `i` at index `i`. */
  const Levels: seq<int> := Iota(LevelCount)

  /** `0, 1, ..., n - 1`. */
  function Iota(n: nat): (r: seq<int>)
    ensures |r| == n && forall i :: 0 <= i < n ==> r[i] == i
  {
    seq(n, i => i)
  }

  function Lesser(x: int, y: int): int
  {
    if x <= y then x else y
  }

  /** `Arrays.copyOfRange`: the slice `[lo, hi)` (Java's `from` and `to`), padded with zeros past
      the end of `original`. Java throws when `lo` lies outside
      `[0, original.length]` or exceeds `hi`; that is `None` here. */
  function CopyOfRange(original: seq<int>, lo: int, hi: int): (r: Option<seq<int>>)
    ensures r.Some? <==> 0 <= lo <= |original| && lo <= hi
    ensures r.Some? ==> |r.value| == hi - lo
    ensures r.Some? ==> forall k :: 0 <= k < hi - lo ==>
      r.value[k] == (if lo + k < |original| then original[lo + k] else 0)
  {
    if lo < 0 || lo > |original| || lo > hi then None
    else if hi <= |original| then Some(original[lo..hi])
    else Some(original[lo..] + seq(hi - |original|, _ => 0))
  }

  /** Reference weight: the sum of `counts[i]` for `i` in `[lo, hi)`. */
  function RangeSum(counts: seq<int>, lo: int, hi: int): int
    requires 0 <= lo && hi <= |counts|
    decreases hi - lo
  {
    if hi <= lo then 0 else RangeSum(counts, lo, hi - 1) + counts[hi - 1]
  }

  /** Reference first moment: the sum of `counts[i] * i` for `i` in `[lo, hi)`. */
  function MomentSum(counts: seq<int>, lo: int, hi: int): real
    requires 0 <= lo && hi <= |counts|
    decreases hi - lo
  {
    if hi <= lo then 0.0
    else MomentSum(counts, lo, hi - 1) + Product(counts[hi - 1] as real, (hi - 1) as real)
  }

  /** Reference spread: the sum of `counts[i] * (i - mean)^2` for `i` in `[lo, hi)`. */
  function DeviationSum(counts: seq<int>, lo: int, hi: int, mean: real): real
    requires 0 <= lo && hi <= |counts|
    decreases hi - lo
  {
    if hi <= lo then 0.0 else DeviationSum(counts, lo, hi - 1, mean) + Spread(hi - 1, mean, counts[hi - 1])
  }

  /** The contribution of `count` pixels at `level` to the spread about `mean`. */
  function Spread(level: int, mean: real, count: int): real
  {
    Product(Square(level as real - mean), count as real)
  }

  function Square(x: real): real
  {
    Product(x, x)
  }

  lemma {:induction false} ProductSign(x: real, y: real)
    ensures x >= 0.0 && y >= 0.0 ==> Product(x, y) >= 0.0
    ensures x > 0.0 && y > 0.0 ==> Product(x, y) > 0.0
  {
  }

  /** A square is never negative, and positive away from zero. */
  lemma {:induction false} SquareSign(x: real)
    ensures Square(x) >= 0.0
    ensures x != 0.0 ==> Square(x) > 0.0
  {
    if x >= 0.0 {
      ProductSign(x, x);
    } else {
      ProductSign(-x, -x);
      assert Product(-x, -x) == Product(x, x);
    }
  }

  lemma {:induction false} RangeSumNonnegative(counts: seq<int>, lo: int, hi: int)
    requires 0 <= lo && hi <= |counts|
    requires forall i :: 0 <= i < |counts| ==> counts[i] >= 0
    ensures RangeSum(counts, lo, hi) >= 0
    decreases hi - lo
  {
    if hi > lo {
      RangeSumNonnegative(counts, lo, hi - 1);
    }
  }

  lemma {:induction false} SumOfSlice(a: seq<int>, lo: int, hi: int)
    requires 0 <= lo <= hi <= |a|
    ensures Sum(a[lo..hi]) == RangeSum(a, lo, hi)
    decreases hi - lo
  {
    var s := a[lo..hi];
    if hi > lo {
      assert s[..|s| - 1] == a[lo..hi - 1];
      SumOfSlice(a, lo, hi - 1);
      assert Sum(s) == Sum(s[..|s| - 1]) + s[|s| - 1];
    } else {
      assert s == [];
    }
  }

  /** The sum Java takes of a copied section is the reference weight. */
  lemma {:induction false} SectionSum(a: seq<int>, lo: int, hi: int)
    requires 0 <= lo <= |a| && lo <= hi
    ensures CopyOfRange(a, lo, hi).Some?
    ensures Sum(CopyOfRange(a, lo, hi).value) == RangeSum(a, lo, Lesser(hi, |a|))
  {
    var copy := CopyOfRange(a, lo, hi).value;
    if hi <= |a| {
      assert copy == a[lo..hi];
      SumOfSlice(a, lo, hi);
    } else {
      var padded := a[lo..|a|] + seq(hi - |a|, _ => 0);
      assert copy == padded;
      SumPadded(a[lo..|a|], hi - |a|);
      SumOfSlice(a, lo, |a|);
    }
  }

  /** Copied counts stay non-negative, the padding included. */
  lemma {:induction false} SectionNonnegative(counts: seq<int>, lo: int, hi: int)
    requires forall i :: 0 <= i < |counts| ==> counts[i] >= 0
    requires 0 <= lo <= |counts| && lo <= hi
    ensures forall k :: 0 <= k < hi - lo ==> CopyOfRange(counts, lo, hi).value[k] >= 0
  {
  }

  lemma {:induction false} WeightedSquareNonnegative(deviation: real, square: real, count: real)
    requires square == Product(deviation, deviation) && count >= 0.0
    ensures Product(square, count) >= 0.0
  {
    assert square >= 0.0;
  }

  /** The variance numerator is a sum of squares weighted by non-negative
      counts, so it is never negative. */
  lemma {:induction false} SquaresDotNonnegative(c: seq<real>, v: seq<real>, mean: real)
    requires |c| == |v|
    requires forall k :: 0 <= k < |c| ==> c[k] >= 0.0
    ensures Dot(Multi(Sub(v, mean), Sub(v, mean)), c) >= 0.0
  {
    var deviations := Sub(v, mean);
    var squares := Multi(deviations, deviations);
    forall k | 0 <= k < |c|
      ensures Product(squares[k], c[k]) >= 0.0
    {
      WeightedSquareNonnegative(deviations[k], squares[k], c[k]);
    }
    PairSumNonnegative(squares, c, DotPairs(squares));
  }

  /** Lines 126-135 of `getOtsuValues` on an already copied section of
      counts and the matching section of levels. */
  function SectionStatistics(section: seq<int>, sectionValues: seq<int>): (r: OtsuValues)
    requires |section| == |sectionValues|
    requires forall k :: 0 <= k < |section| ==> section[k] >= 0
    ensures r.weight == Sum(section) as real
    ensures r.weight >= 0.0 && r.variance >= 0.0
    ensures r.mean.None? <==> r.weight == 0.0
    ensures r.weight == 0.0 ==> r.variance == 0.0
  {
    var weight := Sum(section) as real;
    var c := DoubleArray(section);
    var v := DoubleArray(sectionValues);
    if weight == 0.0 then
      OtsuValues(weight, None, 0.0)
    else
      var mean := Dot(c, v) / weight;
      var deviations := Sub(v, mean);
      var squares := Multi(deviations, deviations);
      SquaresDotNonnegative(c, v, mean);
      var variance := Dot(squares, c) / weight;
      OtsuValues(weight, Some(mean), variance)
  }

  /** `getOtsuValues(counts, values, range)`. The weight is the sum of the
      counts in `[start, limit)`; the mean is `dot(counts, values) / weight`
      and the variance `dot((values - mean)^2, counts) / weight`, where `dot`
      leaves out the band's last level. An empty band takes the explicit
      `weight == 0` branch that replaces Java's NaN variance with 0. */
  function BandStatistics(counts: seq<int>, values: seq<int>, range: Range): (r: Option<OtsuValues>)
    requires forall i :: 0 <= i < |counts| ==> counts[i] >= 0
    ensures r.Some? <==> 0 <= range.start <= range.limit && range.start <= |counts| && range.start <= |values|
    ensures r.Some? ==> r.value.weight == RangeSum(counts, range.start, Lesser(range.limit, |counts|)) as real
    ensures r.Some? ==> r.value.weight >= 0.0 && r.value.variance >= 0.0
    ensures r.Some? ==> (r.value.mean.None? <==> r.value.weight == 0.0)
    ensures r.Some? && r.value.weight == 0.0 ==> r.value.variance == 0.0
  {
    if CopyOfRange(counts, range.start, range.limit).None? || CopyOfRange(values, range.start, range.limit).None? then None
    else
      SectionSum(counts, range.start, range.limit);
      SectionNonnegative(counts, range.start, range.limit);
      Some(SectionStatistics(CopyOfRange(counts, range.start, range.limit).value, CopyOfRange(values, range.start, range.limit).value))
  }

  /** Shifted products of counts and levels add up to the first moment. */
  lemma {:induction false} PairSumIsMoment(counts: seq<int>, lo: nat, c: seq<real>, v: seq<real>, m: nat)
    requires lo + m <= |counts| && m <= |c| && m <= |v|
    requires forall k :: 0 <= k < m ==> c[k] == counts[lo + k] as real && v[k] == (lo + k) as real
    ensures PairSum(c, v, m) == MomentSum(counts, lo, lo + m)
  {
    if m > 0 {
      PairSumIsMoment(counts, lo, c, v, m - 1);
    }
  }

  lemma {:induction false} SpreadTerm(square: real, deviation: real, count: real, level: int, mean: real, n: int)
    requires square == Product(deviation, deviation) && deviation == level as real - mean
    requires count == n as real
    ensures Product(square, count) == Spread(level, mean, n)
  {
  }

  /** `dot` of a section of counts with its levels is the first moment of
      the section without its last level. */
  lemma {:induction false} SectionMoment(counts: seq<int>, lo: nat, section: seq<int>, sectionValues: seq<int>)
    requires 1 <= |section| == |sectionValues| && lo + |section| <= |counts|
    requires forall k :: 0 <= k < |section| ==> section[k] == counts[lo + k]
    requires forall k :: 0 <= k < |section| ==> sectionValues[k] == lo + k
    ensures Dot(DoubleArray(section), DoubleArray(sectionValues)) == MomentSum(counts, lo, lo + |section| - 1)
  {
    PairSumIsMoment(counts, lo, DoubleArray(section), DoubleArray(sectionValues), |section| - 1);
  }

  /** `dot` of the squared deviations with the section of counts is the
      spread of the section without its last level. */
  lemma {:induction false} SectionDeviation(counts: seq<int>, lo: nat, section: seq<int>, sectionValues: seq<int>, mean: real)
    requires 1 <= |section| == |sectionValues| && lo + |section| <= |counts|
    requires forall k :: 0 <= k < |section| ==> section[k] == counts[lo + k]
    requires forall k :: 0 <= k < |section| ==> sectionValues[k] == lo + k
    ensures var deviations := Sub(DoubleArray(sectionValues), mean);
      Dot(Multi(deviations, deviations), DoubleArray(section)) == DeviationSum(counts, lo, lo + |section| - 1, mean)
  {
    var deviations := Sub(DoubleArray(sectionValues), mean);
    var squares, c := Multi(deviations, deviations), DoubleArray(section);
    SectionPairs(counts, lo, section, sectionValues, mean, |section| - 1);
    assert Dot(squares, c) == PairSum(squares, c, |section| - 1);
  }

  /** The first `m` pairs `dot` adds in `SectionDeviation` (squared
      deviations of the levels `lo, lo + 1, ...` times their counts) make up
      the spread of `[lo, lo + m)`. */
  lemma {:induction false} SectionPairs(counts: seq<int>, lo: nat, section: seq<int>, sectionValues: seq<int>,
                                        mean: real, m: nat)
    requires |section| == |sectionValues| && m <= |section| && lo + |section| <= |counts|
    requires forall k :: 0 <= k < |section| ==> section[k] == counts[lo + k]
    requires forall k :: 0 <= k < |section| ==> sectionValues[k] == lo + k
    ensures var deviations := Sub(DoubleArray(sectionValues), mean);
      PairSum(Multi(deviations, deviations), DoubleArray(section), m) == DeviationSum(counts, lo, lo + m, mean)
  {
    if m > 0 {
      SectionPairs(counts, lo, section, sectionValues, mean, m - 1);
      SectionPair(counts, lo, section, sectionValues, mean, m - 1);
    }
  }

  /** One pair of `SectionPairs`: the squared deviation of level `lo + k`
      times its count. */
  lemma {:induction false} SectionPair(counts: seq<int>, lo: nat, section: seq<int>, sectionValues: seq<int>, mean: real, k: nat)
    requires |section| == |sectionValues| && k < |section| && lo + |section| <= |counts|
    requires section[k] == counts[lo + k] && sectionValues[k] == lo + k
    ensures var deviations := Sub(DoubleArray(sectionValues), mean);
      Product(Multi(deviations, deviations)[k], DoubleArray(section)[k]) == Spread(lo + k, mean, counts[lo + k])
  {
    var levels := DoubleArray(sectionValues);
    var deviations := Sub(levels, mean);
    var squares, c := Multi(deviations, deviations), DoubleArray(section);
    SpreadTerm(squares[k], deviations[k], c[k], lo + k, mean, counts[lo + k]);
  }

  /** The closed form of `SectionStatistics` on a section of `counts` that
      starts at level `lo`, with the matching levels. */
  lemma {:induction false} SectionClosedForm(counts: seq<int>, lo: nat, section: seq<int>, sectionValues: seq<int>)
    requires 1 <= |section| == |sectionValues| && lo + |section| <= |counts|
    requires forall k :: 0 <= k < |section| ==> section[k] == counts[lo + k] && section[k] >= 0
    requires forall k :: 0 <= k < |section| ==> sectionValues[k] == lo + k
    ensures var r := SectionStatistics(section, sectionValues);
      r.weight > 0.0 ==>
        && r.mean == Some(MomentSum(counts, lo, lo + |section| - 1) / r.weight)
        && r.variance == DeviationSum(counts, lo, lo + |section| - 1, r.mean.value) / r.weight
  {
    var r := SectionStatistics(section, sectionValues);
    if r.weight > 0.0 {
      var mean := Dot(DoubleArray(section), DoubleArray(sectionValues)) / r.weight;
      SectionMoment(counts, lo, section, sectionValues);
      SectionDeviation(counts, lo, section, sectionValues, mean);
    }
  }

  /** Closed form of a non-empty band with the program's levels: the mean
      is the first moment of the levels `[start, limit - 1)` over the weight
      of all of `[start, limit)`, and the variance is the spread of the same
      shortened range about that mean, over the same weight. The band's
      last level counts in the weight only. */
  lemma {:induction false} BandClosedForm(counts: seq<int>, range: Range)
    requires IsHistogram(counts)
    requires 0 <= range.start < range.limit <= LevelCount
    ensures BandStatistics(counts, Levels, range).Some?
    ensures var r := BandStatistics(counts, Levels, range).value;
      r.weight > 0.0 ==>
        && r.mean == Some(MomentSum(counts, range.start, range.limit - 1) / r.weight)
        && r.variance == DeviationSum(counts, range.start, range.limit - 1, r.mean.value) / r.weight
  {
    var section := counts[range.start..range.limit];
    var sectionValues := Levels[range.start..range.limit];
    assert CopyOfRange(counts, range.start, range.limit) == Some(section);
    assert CopyOfRange(Levels, range.start, range.limit) == Some(sectionValues);
    SectionClosedForm(counts, range.start, section, sectionValues);
  }

  /** Two histograms that agree on `[start, limit)` give the same band. */
  lemma {:induction false} BandCongruent(counts: seq<int>, counts': seq<int>, values: seq<int>, range: Range)
    requires forall i :: 0 <= i < |counts| ==> counts[i] >= 0
    requires |counts'| == |counts|
    requires forall i :: 0 <= i < |counts'| ==> counts'[i] >= 0
    requires forall i :: range.start <= i < range.limit && 0 <= i < |counts| ==> counts[i] == counts'[i]
    ensures BandStatistics(counts, values, range) == BandStatistics(counts', values, range)
  {
    var a := CopyOfRange(counts, range.start, range.limit);
    var b := CopyOfRange(counts', range.start, range.limit);
    if a.Some? {
      assert a.value == b.value;
    }
  }

  /** `scaled` is `counts` with every count multiplied by `factor`: the
      histogram of an image with every pixel repeated `factor` times. */
  predicate IsScaled(counts: seq<int>, scaled: seq<int>, factor: nat)
  {
    |scaled| == |counts| && forall i :: 0 <= i < |counts| ==> scaled[i] == factor * counts[i]
  }

  lemma {:induction false} RangeSumScale(counts: seq<int>, scaled: seq<int>, factor: nat, lo: int, hi: int)
    requires IsScaled(counts, scaled, factor)
    requires 0 <= lo && hi <= |counts|
    ensures RangeSum(scaled, lo, hi) == factor * RangeSum(counts, lo, hi)
    decreases hi - lo
  {
    if hi > lo {
      RangeSumScale(counts, scaled, factor, lo, hi - 1);
    }
  }

  lemma {:induction false} MomentSumScale(counts: seq<int>, scaled: seq<int>, factor: nat, lo: int, hi: int)
    requires IsScaled(counts, scaled, factor)
    requires 0 <= lo && hi <= |counts|
    ensures MomentSum(scaled, lo, hi) == Product(factor as real, MomentSum(counts, lo, hi))
    decreases hi - lo
  {
    if hi > lo {
      MomentSumScale(counts, scaled, factor, lo, hi - 1);
      ProductScale(counts[hi - 1], scaled[hi - 1], (hi - 1) as real, factor);
      Distribute(factor as real, MomentSum(counts, lo, hi - 1), Product(counts[hi - 1] as real, (hi - 1) as real));
    }
  }

  lemma {:induction false} ProductScale(count: int, scaled: int, level: real, factor: nat)
    requires scaled == factor * count
    ensures Product(scaled as real, level) == Product(factor as real, Product(count as real, level))
  {
    assert scaled as real == factor as real * count as real;
  }

  lemma {:induction false} Distribute(f: real, x: real, y: real)
    ensures Product(f, x) + Product(f, y) == Product(f, x + y)
  {
  }

  lemma {:induction false} SpreadScale(level: int, mean: real, count: int, scaled: int, factor: nat)
    requires scaled == factor * count
    ensures Spread(level, mean, scaled) == Product(factor as real, Spread(level, mean, count))
  {
    var square := Square(level as real - mean);
    assert scaled as real == factor as real * count as real;
    assert Product(square, factor as real * count as real) == factor as real * Product(square, count as real);
  }

  lemma {:induction false} DeviationSumScale(counts: seq<int>, scaled: seq<int>, factor: nat, lo: int, hi: int, mean: real)
    requires IsScaled(counts, scaled, factor)
    requires 0 <= lo && hi <= |counts|
    ensures DeviationSum(scaled, lo, hi, mean) == Product(factor as real, DeviationSum(counts, lo, hi, mean))
    decreases hi - lo
  {
    if hi > lo {
      DeviationSumScale(counts, scaled, factor, lo, hi - 1, mean);
      SpreadScale(hi - 1, mean, counts[hi - 1], scaled[hi - 1], factor);
      Distribute(factor as real, DeviationSum(counts, lo, hi - 1, mean), Spread(hi - 1, mean, counts[hi - 1]));
    }
  }

  /** Reference definition of a band with the program's levels, from the
      counts alone: weight over `[start, limit)`, mean and variance over
      `[start, limit - 1)`, the empty band having no mean and variance 0. */
  function ReferenceBand(counts: seq<int>, range: Range): OtsuValues
    requires 0 <= range.start <= range.limit <= |counts|
  {
    var weight := RangeSum(counts, range.start, range.limit) as real;
    if weight == 0.0 then OtsuValues(0.0, None, 0.0)
    else
      var mean := MomentSum(counts, range.start, range.limit - 1) / weight;
      OtsuValues(weight, Some(mean), DeviationSum(counts, range.start, range.limit - 1, mean) / weight)
  }

  /** `getOtsuValues` over the program's levels computes the reference band
      for every range the candidate loop can build. */
  lemma {:induction false} BandMatchesReference(counts: seq<int>, range: Range)
    requires IsHistogram(counts)
    requires 0 <= range.start <= range.limit <= LevelCount
    ensures BandStatistics(counts, Levels, range) == Some(ReferenceBand(counts, range))
  {
    var b, expected := BandStatistics(counts, Levels, range), ReferenceBand(counts, range);
    assert b.Some? && b.value.weight == expected.weight by {
      assert Lesser(range.limit, |counts|) == range.limit;
    }
    if expected.weight == 0.0 {
      assert b.value == expected;
    } else {
      BandClosedForm(counts, range);
      assert b.value == expected;
    }
  }

  lemma {:induction false} CancelFactor(f: real, x: real, w: real, x': real, w': real)
    requires f > 0.0 && w != 0.0
    requires x' == Product(f, x) && w' == Product(f, w)
    ensures x' / w' == x / w
  {
  }

  lemma {:induction false} CastProduct(factor: nat, n: int, n': int)
    requires n' == factor * n
    ensures n' as real == Product(factor as real, n as real)
  {
  }

  lemma {:induction false} MomentRatio(counts: seq<int>, scaled: seq<int>, factor: nat, lo: int, hi: int, w: real, w': real)
    requires factor >= 1 && IsScaled(counts, scaled, factor)
    requires 0 <= lo && hi <= |counts|
    requires w != 0.0 && w' == Product(factor as real, w)
    ensures MomentSum(scaled, lo, hi) / w' == MomentSum(counts, lo, hi) / w
  {
    MomentSumScale(counts, scaled, factor, lo, hi);
    CancelFactor(factor as real, MomentSum(counts, lo, hi), w, MomentSum(scaled, lo, hi), w');
  }

  /** Multiplying every count by the same positive factor multiplies the
      band's weight by it and leaves its mean and variance unchanged. */
  lemma {:induction false} ReferenceBandScale(counts: seq<int>, scaled: seq<int>, factor: nat, range: Range)
    requires factor >= 1 && IsScaled(counts, scaled, factor)
    requires 0 <= range.start <= range.limit <= |counts|
    ensures var r, r' := ReferenceBand(counts, range), ReferenceBand(scaled, range);
      r'.weight == factor as real * r.weight && r'.mean == r.mean && r'.variance == r.variance
  {
    var lo, limit := range.start, range.limit;
    var w, w' := RangeSum(counts, lo, limit), RangeSum(scaled, lo, limit);
    RangeSumScale(counts, scaled, factor, lo, limit);
    CastProduct(factor, w, w');
    if w != 0 {
      MomentRatio(counts, scaled, factor, lo, limit - 1, w as real, w' as real);
      ScaledSpreadRatio(counts, scaled, factor, lo, limit - 1, MomentSum(counts, lo, limit - 1) / w as real, w as real, w' as real);
    }
  }

  /** The spread ratio of a non-empty band about a fixed mean survives
      scaling: it gains the factor in numerator and denominator. */
  lemma {:induction false} ScaledSpreadRatio(counts: seq<int>, scaled: seq<int>, factor: nat, lo: int, hi: int, mean: real, w: real, w': real)
    requires factor >= 1 && IsScaled(counts, scaled, factor)
    requires 0 <= lo && hi <= |counts|
    requires w != 0.0 && w' == Product(factor as real, w)
    ensures DeviationSum(scaled, lo, hi, mean) / w' == DeviationSum(counts, lo, hi, mean) / w
  {
    DeviationSumScale(counts, scaled, factor, lo, hi, mean);
    CancelFactor(factor as real, DeviationSum(counts, lo, hi, mean), w, DeviationSum(scaled, lo, hi, mean), w');
  }

  lemma {:induction false} RangeSumSingle(counts: seq<int>, lo: int, hi: int, k: int)
    requires 0 <= lo && hi <= |counts|
    requires forall i :: lo <= i < hi && i != k ==> counts[i] == 0
    ensures RangeSum(counts, lo, hi) == if lo <= k < hi then counts[k] else 0
    decreases hi - lo
  {
    if hi > lo {
      RangeSumSingle(counts, lo, hi - 1, k);
    }
  }

  lemma {:induction false} MomentSumSingle(counts: seq<int>, lo: int, hi: int, k: int)
    requires 0 <= lo && hi <= |counts|
    requires forall i :: lo <= i < hi && i != k ==> counts[i] == 0
    ensures MomentSum(counts, lo, hi) == if lo <= k < hi then Product(counts[k] as real, k as real) else 0.0
    decreases hi - lo
  {
    if hi > lo {
      MomentSumSingle(counts, lo, hi - 1, k);
    }
  }

  /** Every level's count is part of the weight of a band holding it. */
  lemma {:induction false} RangeSumAtLeast(counts: seq<int>, lo: int, hi: int, p: int)
    requires 0 <= lo && hi <= |counts|
    requires forall i :: 0 <= i < |counts| ==> counts[i] >= 0
    requires lo <= p < hi
    ensures RangeSum(counts, lo, hi) >= counts[p]
    decreases hi - lo
  {
    if p < hi - 1 {
      RangeSumAtLeast(counts, lo, hi - 1, p);
    } else {
      RangeSumNonnegative(counts, lo, hi - 1);
    }
  }

  lemma {:induction false} SpreadVanishes(level: int, mean: real, count: int)
    requires count == 0 || level as real == mean
    ensures Spread(level, mean, count) == 0.0
  {
  }

  /** No spread when every counted level sits on the mean. */
  lemma {:induction false} DeviationSumVanishes(counts: seq<int>, lo: int, hi: int, mean: real)
    requires 0 <= lo && hi <= |counts|
    requires forall i :: lo <= i < hi ==> counts[i] == 0 || i as real == mean
    ensures DeviationSum(counts, lo, hi, mean) == 0.0
    decreases hi - lo
  {
    if hi > lo {
      DeviationSumVanishes(counts, lo, hi - 1, mean);
      SpreadVanishes(hi - 1, mean, counts[hi - 1]);
    }
  }

  lemma {:induction false} SpreadNonnegative(level: int, mean: real, count: int)
    requires count >= 0
    ensures Spread(level, mean, count) >= 0.0
  {
    SquareSign(level as real - mean);
    ProductSign(Square(level as real - mean), count as real);
  }

  /** Every level's share of the spread is part of it. */
  lemma {:induction false} DeviationSumAtLeast(counts: seq<int>, lo: int, hi: int, mean: real, p: int)
    requires 0 <= lo && hi <= |counts|
    requires forall i :: 0 <= i < |counts| ==> counts[i] >= 0
    ensures DeviationSum(counts, lo, hi, mean) >= 0.0
    ensures lo <= p < hi ==> DeviationSum(counts, lo, hi, mean) >= Spread(p, mean, counts[p])
    decreases hi - lo
  {
    if hi > lo {
      DeviationSumAtLeast(counts, lo, hi - 1, mean, p);
      SpreadNonnegative(hi - 1, mean, counts[hi - 1]);
      if lo <= p < hi - 1 {
        SpreadNonnegative(p, mean, counts[p]);
      }
    }
  }

  lemma {:induction false} CancelCount(moment: real, weight: real, c: real, k: real)
    requires c != 0.0 && moment == Product(c, k) && weight == c
    ensures moment / weight == k
  {
  }

  /** A band in which at most one level `k` has pixels has variance 0. */
  lemma {:induction false} ReferenceBandSingleLevel(counts: seq<int>, k: int, range: Range)
    requires 0 <= range.start <= range.limit <= |counts|
    requires forall v :: range.start <= v < range.limit && v != k ==> counts[v] == 0
    ensures ReferenceBand(counts, range).variance == 0.0
  {
    var lo, hi := range.start, range.limit - 1;
    var w := RangeSum(counts, lo, range.limit);
    if w != 0 {
      if lo <= k < hi {
        RangeSumSingle(counts, lo, range.limit, k);
        MomentSumSingle(counts, lo, hi, k);
        CancelCount(MomentSum(counts, lo, hi), w as real, counts[k] as real, k as real);
        DeviationSumVanishes(counts, lo, hi, k as real);
      } else {
        DeviationSumVanishes(counts, lo, hi, MomentSum(counts, lo, hi) / w as real);
      }
    }
  }

  lemma {:induction false} SpreadPositive(level: int, mean: real, count: int)
    requires count > 0 && level as real != mean
    ensures Spread(level, mean, count) > 0.0
  {
    SquareSign(level as real - mean);
    ProductSign(Square(level as real - mean), count as real);
  }

  lemma {:induction false} PositiveRatio(d: real, w: real)
    requires d > 0.0 && w > 0.0
    ensures d / w > 0.0
  {
  }

  /** A band with pixels at two different levels, neither of them the
      band's last level, has a positive weight and a positive variance. */
  lemma {:induction false} ReferenceBandTwoLevels(counts: seq<int>, range: Range, p: int, q: int)
    requires forall i :: 0 <= i < |counts| ==> counts[i] >= 0
    requires 0 <= range.start <= range.limit <= |counts|
    requires range.start <= p < range.limit - 1 && range.start <= q < range.limit - 1 && p != q
    requires counts[p] > 0 && counts[q] > 0
    ensures ReferenceBand(counts, range).weight > 0.0
    ensures ReferenceBand(counts, range).variance > 0.0
  {
    var lo, hi := range.start, range.limit - 1;
    var w := RangeSum(counts, lo, range.limit);
    RangeSumAtLeast(counts, lo, range.limit, p);
    var mean := MomentSum(counts, lo, hi) / w as real;
    var level := if p as real != mean then p else q;
    DeviationSumAtLeast(counts, lo, hi, mean, level);
    SpreadPositive(level, mean, counts[level]);
    PositiveRatio(DeviationSum(counts, lo, hi, mean), w as real);
  }
}
