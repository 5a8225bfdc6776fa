/** `getOtsuMatrix`: the within-class variance of every candidate
    threshold, the threshold `getSelectedTreshold` picks among them, and the
    binarisation of the grey matrix with it. */
module Otsu {
  import opened Wrappers
  import opened Vectors
  import opened Histograms
  import opened Bands
  import opened Selection

  /** Number of candidate thresholds: the loop runs `i = 1 .. 255`. */
  const CandidateCount: int := LevelCount - 1

  predicate IsCandidate(t: int)
  {
    1 <= t < LevelCount
  }

  /** `rangeA`: levels `1 .. t - 1`. The limit is exclusive and the band
      starts at 1, so level 0 is in no band. */
  function LowerBand(t: int): (r: Range)
    ensures forall v :: Covers(r, v) <==> 1 <= v < t
  {
    Range(1, t)
  }

  /** `rangeB`: levels `t + 1 .. 255`. Level `t` itself is in neither band. */
  function UpperBand(t: int): (r: Range)
    ensures forall v :: Covers(r, v) <==> t < v < LevelCount
  {
    Range(t + 1, LevelCount)
  }

  /** Line 73: `A.weight * A.variance + B.weight * B.variance` for the
      candidate `t`. An empty band contributes 0: its variance is the NaN
      that line 133 replaces by 0. */
  function WithinClassVariance(counts: seq<int>, t: int): (r: real)
    requires IsHistogram(counts) && IsCandidate(t)
    ensures r >= 0.0
  {
    WeightedVariance(BandStatistics(counts, Levels, LowerBand(t)).value)
      + WeightedVariance(BandStatistics(counts, Levels, UpperBand(t)).value)
  }

  /** `weight * variance` of one band. */
  function WeightedVariance(band: OtsuValues): (r: real)
    requires band.weight >= 0.0 && band.variance >= 0.0
    ensures r >= 0.0
  {
    ProductSign(band.weight, band.variance);
    Product(band.weight, band.variance)
  }

  /** Reference: the spread of a band about its own mean, from the counts
      alone (0 for a band without pixels). The weight times the variance
      cancels the division by the weight. */
  function BandSpread(counts: seq<int>, range: Range): real
    requires 0 <= range.start <= range.limit <= |counts|
  {
    var w := RangeSum(counts, range.start, range.limit);
    if w == 0 then 0.0
    else DeviationSum(counts, range.start, range.limit - 1, MomentSum(counts, range.start, range.limit - 1) / w as real)
  }

  /** Reference within-class variance: the spreads of both bands added. */
  function ReferenceWithinClassVariance(counts: seq<int>, t: int): real
    requires |counts| == LevelCount && IsCandidate(t)
  {
    BandSpread(counts, LowerBand(t)) + BandSpread(counts, UpperBand(t))
  }

  lemma {:induction false} CancelWeight(w: real, d: real)
    requires w != 0.0
    ensures Product(w, d / w) == d
  {
  }

  /** A band's weight times its variance is its spread. */
  lemma {:induction false} BandWeightedVariance(counts: seq<int>, range: Range)
    requires IsHistogram(counts)
    requires 0 <= range.start <= range.limit <= LevelCount
    ensures WeightedVariance(BandStatistics(counts, Levels, range).value) == BandSpread(counts, range)
  {
    BandMatchesReference(counts, range);
    var r := ReferenceBand(counts, range);
    var w := RangeSum(counts, range.start, range.limit);
    if w != 0 {
      var mean := MomentSum(counts, range.start, range.limit - 1) / w as real;
      CancelWeight(w as real, DeviationSum(counts, range.start, range.limit - 1, mean));
    }
  }

  /** Line 73 computes the spreads of the two bands about their means. */
  lemma {:induction false} WithinClassVarianceIsSpread(counts: seq<int>, t: int)
    requires IsHistogram(counts) && IsCandidate(t)
    ensures WithinClassVariance(counts, t) == ReferenceWithinClassVariance(counts, t)
  {
    BandWeightedVariance(counts, LowerBand(t));
    BandWeightedVariance(counts, UpperBand(t));
  }

  /** `varianceCache` after the loop: entry `k` belongs to candidate `k + 1`. */
  function Variances(counts: seq<int>): (r: seq<real>)
    requires IsHistogram(counts)
    ensures |r| == CandidateCount
    ensures forall k :: 0 <= k < CandidateCount ==> r[k] == WithinClassVariance(counts, k + 1)
  {
    seq(CandidateCount, k requires 0 <= k < CandidateCount => WithinClassVariance(counts, k + 1))
  }

  /** `tresholdCache` after the loop: `(double) values[i]` for `i = 1 .. 255`. */
  const Thresholds: seq<real> := CandidateThresholds(CandidateCount)

  /** `1.0, 2.0, ..., n as real`. */
  function CandidateThresholds(n: nat): (r: seq<real>)
    ensures |r| == n && forall k :: 0 <= k < n ==> r[k] == (k + 1) as real
  {
    seq(n, k => (k + 1) as real)
  }

  /** Lines 65-80: the candidate whose entry in the variance cache is the
      first minimum, which is the threshold `getSelectedTreshold` returns. */
  function OtsuThreshold(counts: seq<int>): (t: int)
    requires IsHistogram(counts)
    ensures IsCandidate(t)
    ensures IsFirstMin(Variances(counts), t - 1)
    ensures SelectedTreshold(Variances(counts), Thresholds) == Some(t as real)
  {
    var k := FirstMinIndex(Variances(counts));
    SelectedAtFirstMin(Variances(counts), k);
    k + 1
  }

  /** Whatever the variances, the threshold stored beside the first minimum
      is its position plus one. */
  lemma {:induction false} SelectedAtFirstMin(s: seq<real>, k: int)
    requires |s| == CandidateCount && IsFirstMin(s, k)
    ensures SelectedTreshold(s, Thresholds) == Some((k + 1) as real)
  {
    assert FirstMinIndex(s) == k;
  }

  /** The threshold has the smallest within-class variance of all
      candidates, and every smaller candidate has a strictly larger one. */
  lemma {:induction false} OtsuThresholdMinimises(counts: seq<int>)
    requires IsHistogram(counts)
    ensures forall u :: IsCandidate(u) ==> WithinClassVariance(counts, OtsuThreshold(counts)) <= WithinClassVariance(counts, u)
    ensures forall u :: 1 <= u < OtsuThreshold(counts) ==> WithinClassVariance(counts, u) > WithinClassVariance(counts, OtsuThreshold(counts))
  {
    FirstMinCandidate(counts, OtsuThreshold(counts) - 1);
  }

  /** The first minimum of the variance cache, read as a candidate. */
  lemma {:induction false} FirstMinCandidate(counts: seq<int>, k: int)
    requires IsHistogram(counts) && IsFirstMin(Variances(counts), k)
    ensures forall u :: IsCandidate(u) ==> WithinClassVariance(counts, k + 1) <= WithinClassVariance(counts, u)
    ensures forall u :: 1 <= u < k + 1 ==> WithinClassVariance(counts, u) > WithinClassVariance(counts, k + 1)
  {
    var s := Variances(counts);
    forall u | IsCandidate(u)
      ensures WithinClassVariance(counts, k + 1) <= WithinClassVariance(counts, u)
    {
      assert s[k] <= s[u - 1];
    }
    forall u | 1 <= u < k + 1
      ensures WithinClassVariance(counts, u) > WithinClassVariance(counts, k + 1)
    {
      assert s[u - 1] > s[k];
    }
  }

  /** Lines 65-78: the candidate loop fills both caches, one entry per
      threshold `1 .. 255`, in order. */
  method FillCaches(counts: seq<int>) returns (varianceCache: seq<real>, tresholdCache: seq<real>)
    requires IsHistogram(counts)
    ensures varianceCache == Variances(counts)
    ensures tresholdCache == Thresholds
  {
    varianceCache, tresholdCache := [], [];
    var i := 1;
    while i < LevelCount
      invariant 1 <= i <= LevelCount
      invariant varianceCache == Variances(counts)[..i - 1]
      invariant tresholdCache == Thresholds[..i - 1]
    {
      var treshold := Levels[i];
      var withinClassVariance := WithinClassVariance(counts, treshold);
      CacheStep(counts, i);
      varianceCache := varianceCache + [withinClassVariance];
      tresholdCache := tresholdCache + [treshold as real];
      i := i + 1;
    }
  }

  /** One pass of the candidate loop appends candidate `i`'s entries. */
  lemma {:induction false} CacheStep(counts: seq<int>, i: int)
    requires IsHistogram(counts) && IsCandidate(i)
    ensures Variances(counts)[..i] == Variances(counts)[..i - 1] + [WithinClassVariance(counts, i)]
    ensures Thresholds[..i] == Thresholds[..i - 1] + [i as real]
  {
    PrefixStep(Variances(counts), i);
    PrefixStep(Thresholds, i);
  }

  lemma {:induction false} PrefixStep<T>(s: seq<T>, i: int)
    requires 1 <= i <= |s|
    ensures s[..i] == s[..i - 1] + [s[i - 1]]
  {
  }

  /** Lines 84-89: 255 above the threshold, 0 at or below it. Java compares
      the `int` pixel with the `double` threshold. */
  function BinarizePixel(value: int, treshold: real): (r: int)
    ensures r == 0 || r == 255
    ensures r == 255 <==> value as real > treshold
  {
    if value as real > treshold then 255 else 0
  }

  /** One row of the binarisation loop. */
  function BinarizeRow(row: seq<int>, treshold: real): (r: seq<int>)
    ensures |r| == |row|
    ensures forall j :: 0 <= j < |row| ==> r[j] == BinarizePixel(row[j], treshold)
  {
    if |row| == 0 then [] else BinarizeRow(row[..|row| - 1], treshold) + [BinarizePixel(row[|row| - 1], treshold)]
  }

  /** Lines 82-91: every entry replaced by 255 or 0. The matrix keeps its
      shape, ragged rows included. */
  function Binarize(m: seq<seq<int>>, treshold: real): (r: seq<seq<int>>)
    ensures |r| == |m|
    ensures forall i :: 0 <= i < |m| ==> r[i] == BinarizeRow(m[i], treshold)
  {
    if |m| == 0 then [] else Binarize(m[..|m| - 1], treshold) + [BinarizeRow(m[|m| - 1], treshold)]
  }

  /** Every entry is 0 or 255. */
  predicate IsBinary(m: seq<seq<int>>)
  {
    forall i, j :: 0 <= i < |m| && 0 <= j < |m[i]| ==> m[i][j] == 0 || m[i][j] == 255
  }

  /** `getOtsuMatrix`: the grey matrix binarised with the threshold its own
      histogram selects. Java throws on an entry outside `[0, 255]`
      (`counts[pos]`); that is `None` here. */
  function OtsuMatrix(m: seq<seq<int>>): (r: Option<seq<seq<int>>>)
    ensures r.Some? <==> InRange(m)
    ensures r.Some? ==> |r.value| == |m| && forall i :: 0 <= i < |m| ==> |r.value[i]| == |m[i]|
    ensures r.Some? ==> IsBinary(r.value)
    ensures r.Some? ==> forall i, j :: 0 <= i < |m| && 0 <= j < |m[i]| ==>
      (r.value[i][j] == 255 <==> m[i][j] > OtsuThreshold(Histogram(m).value))
  {
    if !InRange(m) then None
    else
      HistogramSum(m);
      BinarizeMeaning(m, OtsuThreshold(Histogram(m).value));
      Some(Binarize(m, OtsuThreshold(Histogram(m).value) as real))
  }

  /** Binarising with a whole-number threshold keeps the shape, yields only
      0 and 255, and yields 255 exactly above the threshold. */
  lemma {:induction false} BinarizeMeaning(m: seq<seq<int>>, t: int)
    ensures var r := Binarize(m, t as real);
      && |r| == |m| && (forall i :: 0 <= i < |m| ==> |r[i]| == |m[i]|)
      && IsBinary(r)
      && forall i, j :: 0 <= i < |m| && 0 <= j < |m[i]| ==> (r[i][j] == 255 <==> m[i][j] > t)
  {
    var r := Binarize(m, t as real);
    forall i, j | 0 <= i < |m| && 0 <= j < |m[i]|
      ensures (r[i][j] == 0 || r[i][j] == 255) && (r[i][j] == 255 <==> m[i][j] > t)
    {
      assert r[i][j] == BinarizePixel(m[i][j], t as real);
    }
  }

  /** The inner binarisation loop over one row. */
  method BinarizeRowLoop(row: seq<int>, treshold: real) returns (r: seq<int>)
    ensures r == BinarizeRow(row, treshold)
  {
    r := [];
    var j := 0;
    while j < |row|
      invariant 0 <= j <= |row|
      invariant |r| == j && forall k :: 0 <= k < j ==> r[k] == BinarizePixel(row[k], treshold)
    {
      var value := row[j];
      if value as real > treshold {
        r := r + [255];
      } else {
        r := r + [0];
      }
      j := j + 1;
    }
  }

  /** Lines 82-91, row by row. */
  method BinarizeMatrix(matrix: seq<seq<int>>, treshold: real) returns (r: seq<seq<int>>)
    ensures r == Binarize(matrix, treshold)
  {
    r := [];
    var i := 0;
    while i < |matrix|
      invariant 0 <= i <= |matrix|
      invariant |r| == i && forall k :: 0 <= k < i ==> r[k] == BinarizeRow(matrix[k], treshold)
    {
      var row := BinarizeRowLoop(matrix[i], treshold);
      r := r + [row];
      i := i + 1;
    }
  }

  /** `getOtsuMatrix` as written: the histogram loop, the candidate loop,
      `getSelectedTreshold` and the binarisation loop. */
  method GetOtsuMatrix(matrix: seq<seq<int>>) returns (r: Option<seq<seq<int>>>)
    ensures r == OtsuMatrix(matrix)
  {
    var counts := BuildHistogram(matrix);
    if counts.None? {
      return None;
    }
    HistogramSum(matrix);
    var varianceCache, tresholdCache := FillCaches(counts.value);
    var selectedTreshold := GetSelectedTreshold(varianceCache, tresholdCache);
    assert selectedTreshold == Some(OtsuThreshold(counts.value) as real);
    var binary := BinarizeMatrix(matrix, selectedTreshold.value);
    r := Some(binary);
  }

  /** The within-class variance of candidate `t` reads neither the count
      of level 0 nor the count of level `t`. */
  lemma {:induction false} WithinClassVarianceIgnoresLevels(counts: seq<int>, counts': seq<int>, t: int)
    requires IsHistogram(counts) && IsHistogram(counts') && IsCandidate(t)
    requires forall v :: 1 <= v < LevelCount && v != t ==> counts[v] == counts'[v]
    ensures WithinClassVariance(counts, t) == WithinClassVariance(counts', t)
  {
    BandCongruent(counts, counts', Levels, LowerBand(t));
    BandCongruent(counts, counts', Levels, UpperBand(t));
  }

  /** Pixels of level 0 never influence the threshold. */
  lemma {:induction false} ThresholdIgnoresLevelZero(counts: seq<int>, counts': seq<int>)
    requires IsHistogram(counts) && IsHistogram(counts')
    requires forall v :: 1 <= v < LevelCount ==> counts[v] == counts'[v]
    ensures OtsuThreshold(counts) == OtsuThreshold(counts')
  {
    forall t | IsCandidate(t)
      ensures WithinClassVariance(counts, t) == WithinClassVariance(counts', t)
    {
      WithinClassVarianceIgnoresLevels(counts, counts', t);
    }
    assert Variances(counts) == Variances(counts');
  }

  lemma {:induction false} ScaledProduct(f: real, w: real, v: real, w': real)
    requires w' == Product(f, w)
    ensures Product(w', v) == Product(f, Product(w, v))
  {
  }

  lemma {:induction false} ScaledOrder(f: real, x: real, y: real)
    requires f > 0.0
    ensures Product(f, x) <= Product(f, y) <==> x <= y
  {
    ProductSign(f, y - x);
    ProductSign(f, x - y);
    assert Product(f, y - x) == Product(f, y) - Product(f, x);
    assert Product(f, x - y) == Product(f, x) - Product(f, y);
  }

  /** Scaling the counts scales the spread of a band: the mean stays put
      and every level's term gains the factor. */
  lemma {:induction false} BandSpreadScale(counts: seq<int>, scaled: seq<int>, factor: nat, range: Range)
    requires factor >= 1 && IsScaled(counts, scaled, factor)
    requires 0 <= range.start <= range.limit <= |counts|
    ensures BandSpread(scaled, range) == Product(factor as real, BandSpread(counts, range))
  {
    var lo, limit := range.start, range.limit;
    var w, w' := RangeSum(counts, lo, limit), RangeSum(scaled, lo, limit);
    RangeSumScale(counts, scaled, factor, lo, limit);
    CastProduct(factor, w, w');
    if w != 0 {
      var mean := MomentSum(counts, lo, limit - 1) / w as real;
      MomentRatio(counts, scaled, factor, lo, limit - 1, w as real, w' as real);
      DeviationSumScale(counts, scaled, factor, lo, limit - 1, mean);
    }
  }

  /** Scaling the counts scales the weighted variance of a band. */
  lemma {:induction false} BandScale(counts: seq<int>, scaled: seq<int>, factor: nat, range: Range)
    requires IsHistogram(counts) && IsHistogram(scaled)
    requires factor >= 1 && IsScaled(counts, scaled, factor)
    requires 0 <= range.start <= range.limit <= LevelCount
    ensures WeightedVariance(BandStatistics(scaled, Levels, range).value)
         == Product(factor as real, WeightedVariance(BandStatistics(counts, Levels, range).value))
  {
    BandWeightedVariance(counts, range);
    BandWeightedVariance(scaled, range);
    BandSpreadScale(counts, scaled, factor, range);
  }

  /** A scaled histogram has every within-class variance scaled. */
  lemma {:induction false} WithinClassVarianceScale(counts: seq<int>, scaled: seq<int>, factor: nat, t: int)
    requires IsHistogram(counts) && IsHistogram(scaled) && IsCandidate(t)
    requires factor >= 1 && IsScaled(counts, scaled, factor)
    ensures WithinClassVariance(scaled, t) == Product(factor as real, WithinClassVariance(counts, t))
  {
    var lower, upper := BandSpread(counts, LowerBand(t)), BandSpread(counts, UpperBand(t));
    var lower', upper' := BandSpread(scaled, LowerBand(t)), BandSpread(scaled, UpperBand(t));
    WithinClassVarianceIsSpread(counts, t);
    WithinClassVarianceIsSpread(scaled, t);
    BandSpreadScale(counts, scaled, factor, LowerBand(t));
    BandSpreadScale(counts, scaled, factor, UpperBand(t));
    SumScale(factor as real, lower, upper, lower', upper', WithinClassVariance(counts, t), WithinClassVariance(scaled, t));
  }

  lemma {:induction false} SumScale(f: real, x: real, y: real, x': real, y': real, z: real, z': real)
    requires x' == Product(f, x) && y' == Product(f, y)
    requires z == x + y && z' == x' + y'
    ensures z' == Product(f, z)
  {
  }

  /** Repeating every pixel of an image the same number of times leaves the
      threshold unchanged: only the proportions of the histogram matter. */
  lemma {:induction false} ThresholdScaleInvariant(counts: seq<int>, scaled: seq<int>, factor: nat)
    requires IsHistogram(counts)
    requires factor >= 1 && IsScaled(counts, scaled, factor)
    ensures IsHistogram(scaled)
    ensures OtsuThreshold(scaled) == OtsuThreshold(counts)
  {
    assert IsHistogram(scaled) by {
      forall v | 0 <= v < |scaled|
        ensures scaled[v] >= 0
      {
        assert scaled[v] == factor * counts[v];
      }
    }
    var s, s' := Variances(counts), Variances(scaled);
    forall k | 0 <= k < CandidateCount
      ensures s'[k] == Product(factor as real, s[k])
    {
      WithinClassVarianceScale(counts, scaled, factor, k + 1);
    }
    forall i, j | 0 <= i < |s| && 0 <= j < |s|
      ensures s[i] <= s[j] <==> s'[i] <= s'[j]
    {
      ScaledOrder(factor as real, s[i], s[j]);
    }
    FirstMinOrderInvariant(s, s');
  }

  /** A candidate with no within-class variance bounds the threshold: no
      later candidate can be selected. */
  lemma {:induction false} ZeroVarianceBound(counts: seq<int>, t: int)
    requires IsHistogram(counts) && IsCandidate(t)
    requires WithinClassVariance(counts, t) == 0.0
    ensures OtsuThreshold(counts) <= t
  {
    OtsuThresholdMinimises(counts);
  }

  /** A band in which no level other than `k` has pixels contributes 0. */
  lemma {:induction false} SingleLevelBand(counts: seq<int>, range: Range, k: int)
    requires IsHistogram(counts)
    requires 0 <= range.start <= range.limit <= LevelCount
    requires forall v :: range.start <= v < range.limit && v != k ==> counts[v] == 0
    ensures WeightedVariance(BandStatistics(counts, Levels, range).value) == 0.0
  {
    BandMatchesReference(counts, range);
    ReferenceBandSingleLevel(counts, k, range);
  }

  /** A histogram whose levels 1 .. 255 hold pixels of at most one level
      (an image of one grey, or of one grey and black) selects the first
      candidate, 1. */
  lemma {:induction false} SingleLevelThreshold(counts: seq<int>, a: int)
    requires IsHistogram(counts)
    requires forall v :: 1 <= v < LevelCount && v != a ==> counts[v] == 0
    ensures OtsuThreshold(counts) == 1
  {
    SingleLevelBand(counts, LowerBand(1), a);
    SingleLevelBand(counts, UpperBand(1), a);
    ZeroVarianceBound(counts, 1);
  }

  /** A band holding pixels of two levels, neither of them its last level,
      contributes a positive amount. */
  lemma {:induction false} TwoLevelBand(counts: seq<int>, range: Range, a: int, b: int)
    requires IsHistogram(counts)
    requires 0 <= range.start <= range.limit <= LevelCount
    requires range.start <= a < range.limit - 1 && range.start <= b < range.limit - 1 && a != b
    requires counts[a] > 0 && counts[b] > 0
    ensures WeightedVariance(BandStatistics(counts, Levels, range).value) > 0.0
  {
    BandMatchesReference(counts, range);
    ReferenceBandTwoLevels(counts, range, a, b);
    var r := ReferenceBand(counts, range);
    ProductSign(r.weight, r.variance);
  }

  /** Pixels at exactly two levels `a < b` below 255 (level 0 aside): the
      threshold is `a`, the darker level itself, which the binarisation then
      sends to 0 while `b` goes to 255. */
  lemma {:induction false} TwoLevelThreshold(counts: seq<int>, a: int, b: int)
    requires IsHistogram(counts)
    requires 1 <= a < b < LevelCount - 1
    requires counts[a] > 0 && counts[b] > 0
    requires forall v :: 1 <= v < LevelCount && v != a && v != b ==> counts[v] == 0
    ensures OtsuThreshold(counts) == a
  {
    SingleLevelBand(counts, LowerBand(a), a);
    SingleLevelBand(counts, UpperBand(a), b);
    ZeroVarianceBound(counts, a);
    OtsuThresholdMinimises(counts);
    var selected := OtsuThreshold(counts);
    if selected < a {
      TwoLevelBand(counts, UpperBand(selected), a, b);
      assert false;
    }
  }

  /** Binarising an image that is already black and white, with any
      threshold in `[0, 255)`, gives it back unchanged. */
  lemma {:induction false} BinarizeIdempotent(m: seq<seq<int>>, treshold: real)
    requires IsBinary(m) && 0.0 <= treshold < 255.0
    ensures Binarize(m, treshold) == m
  {
    var r := Binarize(m, treshold);
    forall i | 0 <= i < |m|
      ensures r[i] == m[i]
    {
      forall j | 0 <= j < |m[i]|
        ensures r[i][j] == m[i][j]
      {
        assert r[i][j] == BinarizePixel(m[i][j], treshold);
      }
    }
  }

  /** A black and white image gets the threshold 1. */
  lemma {:induction false} BinaryThreshold(m: seq<seq<int>>)
    requires IsBinary(m)
    ensures InRange(m) && OtsuThreshold(Histogram(m).value) == 1
  {
    HistogramSum(m);
    var counts := Histogram(m).value;
    forall v | 1 <= v < LevelCount && v != 255
      ensures counts[v] == 0
    {
      HistogramSupport(m, v);
    }
    SingleLevelThreshold(counts, 255);
  }

  /** Running the whole method on its own output changes nothing: the
      output holds only 0 and 255, so the threshold becomes 1 and both
      levels keep their side. */
  lemma {:induction false} OtsuMatrixIdempotent(m: seq<seq<int>>)
    requires InRange(m)
    ensures OtsuMatrix(m).Some? && OtsuMatrix(OtsuMatrix(m).value) == OtsuMatrix(m)
  {
    var r := OtsuMatrix(m).value;
    BinaryThreshold(r);
    BinarizeIdempotent(r, 1.0);
  }

  /** An image of a single grey level `a` (or an empty one) gets the
      threshold 1: it turns all white when `a > 1` and all black otherwise. */
  lemma {:induction false} UniformMatrix(m: seq<seq<int>>, a: int)
    requires 0 <= a < LevelCount
    requires forall i, j :: 0 <= i < |m| && 0 <= j < |m[i]| ==> m[i][j] == a
    ensures InRange(m) && OtsuThreshold(Histogram(m).value) == 1
    ensures OtsuMatrix(m).Some?
    ensures forall i, j :: 0 <= i < |m| && 0 <= j < |m[i]| ==>
      OtsuMatrix(m).value[i][j] == (if a > 1 then 255 else 0)
  {
    HistogramSum(m);
    var counts := Histogram(m).value;
    forall v | 1 <= v < LevelCount && v != a
      ensures counts[v] == 0
    {
      HistogramSupport(m, v);
    }
    SingleLevelThreshold(counts, a);
  }

  /** An image of black and two greys `a < b` below 255, both present, is
      split between them: entries of level `b` turn white and all others
      black. */
  lemma {:induction false} BimodalMatrix(m: seq<seq<int>>, a: int, b: int)
    requires 1 <= a < b < LevelCount - 1
    requires forall i, j :: 0 <= i < |m| && 0 <= j < |m[i]| ==> m[i][j] == 0 || m[i][j] == a || m[i][j] == b
    requires exists i, j :: 0 <= i < |m| && 0 <= j < |m[i]| && m[i][j] == a
    requires exists i, j :: 0 <= i < |m| && 0 <= j < |m[i]| && m[i][j] == b
    ensures InRange(m) && OtsuThreshold(Histogram(m).value) == a
    ensures OtsuMatrix(m).Some?
    ensures forall i, j :: 0 <= i < |m| && 0 <= j < |m[i]| ==> (OtsuMatrix(m).value[i][j] == 255 <==> m[i][j] == b)
  {
    HistogramSum(m);
    var counts := Histogram(m).value;
    HistogramSupport(m, a);
    HistogramSupport(m, b);
    forall v | 1 <= v < LevelCount && v != a && v != b
      ensures counts[v] == 0
    {
      HistogramSupport(m, v);
    }
    TwoLevelThreshold(counts, a, b);
  }
}
