/** The array helpers of `Otsu.java` (`doubleArray`, `sub`, `multi`, `dot`)
    and the integer sum taken by `IntStream.sum`. A Java `double[]` is a
    `seq<real>`: arithmetic is exact, so rounding is not modelled. */
module Vectors {

  /** Sum of an integer sequence, accumulated from the front as
      `IntStream.sum` does (32-bit overflow is not modelled). */
  function Sum(s: seq<int>): (r: int)
    ensures (forall i :: 0 <= i < |s| ==> s[i] >= 0) ==> r >= 0
  {
    if |s| == 0 then 0 else Sum(s[..|s| - 1]) + s[|s| - 1]
  }

  /** The sum of a sequence followed by zeros is the sum of the sequence. */
  lemma {:induction false} SumPadded(s: seq<int>, k: nat)
    ensures Sum(s + seq(k, _ => 0)) == Sum(s)
  {
    if k > 0 {
      var t := s + seq(k, _ => 0);
      assert t[..|t| - 1] == s + seq(k - 1, _ => 0);
      SumPadded(s, k - 1);
    } else {
      assert s + seq(k, _ => 0) == s;
    }
  }

  /** Adding `d` at one position adds `d` to the sum. */
  lemma {:induction false} SumUpdate(s: seq<int>, p: int, d: int)
    requires 0 <= p < |s|
    ensures Sum(s[p := s[p] + d]) == Sum(s) + d
  {
    var t := s[p := s[p] + d];
    if p < |s| - 1 {
      assert t[..|t| - 1] == s[..|s| - 1][p := s[p] + d];
      SumUpdate(s[..|s| - 1], p, d);
    } else {
      assert t[..|t| - 1] == s[..|s| - 1];
    }
  }

  /** Real multiplication behind a name, so that facts about a product can
      be proved once over its factors. */
  function Product(x: real, y: real): real
  {
    x * y
  }

  /** `doubleArray`: the same entries, widened to doubles. */
  function DoubleArray(source: seq<int>): (dest: seq<real>)
    ensures |dest| == |source|
    ensures forall i :: 0 <= i < |source| ==> dest[i] == source[i] as real
  {
    if |source| == 0 then [] else [source[0] as real] + DoubleArray(source[1..])
  }

  /** `sub`: every entry decreased by `value`. */
  function Sub(entries: seq<real>, value: real): (r: seq<real>)
    ensures |r| == |entries|
    ensures forall i :: 0 <= i < |entries| ==> r[i] == entries[i] - value
  {
    if |entries| == 0 then [] else [entries[0] - value] + Sub(entries[1..], value)
  }

  /** `multi`: the element-wise product, as long as `a`; Java reads `b[i]`
      for every index of `a`, so `b` must be at least as long. */
  function Multi(a: seq<real>, b: seq<real>): (r: seq<real>)
    requires |a| <= |b|
    ensures |r| == |a|
    ensures forall i :: 0 <= i < |a| ==> r[i] == Product(a[i], b[i])
  {
    if |a| == 0 then [] else [Product(a[0], b[0])] + Multi(a[1..], b[1..])
  }

  /** Reference definition: the sum of `a[i] * b[i]` over `i` in `[0, n)`. */
  function PairSum(a: seq<real>, b: seq<real>, n: nat): real
    requires n <= |a| && n <= |b|
  {
    if n == 0 then 0.0 else PairSum(a, b, n - 1) + Product(a[n - 1], b[n - 1])
  }

  /** Number of pairs `dot` adds: the loop bound is `a.length - 1`. */
  function DotPairs(a: seq<real>): nat
  {
    if |a| == 0 then 0 else |a| - 1
  }

  /** The loop of `dot` from index `i` with running total `sum`. */
  function DotLoop(a: seq<real>, b: seq<real>, i: nat, sum: real): (r: real)
    requires i <= DotPairs(a) <= |b|
    ensures r == sum + PairSum(a, b, DotPairs(a)) - PairSum(a, b, i)
    decreases DotPairs(a) - i
  {
    if i < |a| - 1 then DotLoop(a, b, i + 1, sum + Product(a[i], b[i])) else sum
  }

  /** `dot`: the products of the first `a.length - 1` pairs are added, so
      the last pair is never part of the result and arrays of length at
      most one give zero. */
  function Dot(a: seq<real>, b: seq<real>): (r: real)
    requires DotPairs(a) <= |b|
    ensures r == PairSum(a, b, DotPairs(a))
    ensures |a| <= 1 ==> r == 0.0
  {
    DotLoop(a, b, 0, 0.0)
  }

  /** `PairSum` reads only the first `n` entries of each argument. */
  lemma {:induction false} PairSumCongruent(a: seq<real>, b: seq<real>, a': seq<real>, b': seq<real>, n: nat)
    requires n <= |a| && n <= |b| && n <= |a'| && n <= |b'|
    requires forall i :: 0 <= i < n ==> a[i] == a'[i] && b[i] == b'[i]
    ensures PairSum(a, b, n) == PairSum(a', b', n)
  {
    if n > 0 {
      PairSumCongruent(a, b, a', b', n - 1);
    }
  }

  /** The last entry of `a`, and the entry of `b` beside it, never change
      the result of `dot`. */
  lemma DotIgnoresLastPair(a: seq<real>, b: seq<real>, x: real, y: real)
    requires 1 <= |a| <= |b|
    ensures Dot(a[|a| - 1 := x], b[|a| - 1 := y]) == Dot(a, b)
  {
    PairSumCongruent(a, b, a[|a| - 1 := x], b[|a| - 1 := y], |a| - 1);
  }

  /** A sum of non-negative products is non-negative. */
  lemma {:induction false} PairSumNonnegative(a: seq<real>, b: seq<real>, n: nat)
    requires n <= |a| && n <= |b|
    requires forall i :: 0 <= i < n ==> Product(a[i], b[i]) >= 0.0
    ensures PairSum(a, b, n) >= 0.0
  {
    if n > 0 {
      PairSumNonnegative(a, b, n - 1);
    }
  }
}
