/** `getSelectedTreshold`: the threshold whose within-class variance is
    the smallest, the first one when several tie. */
module Selection {
  import opened Wrappers

  /** `Collections.min` of a non-empty list of variances. */
  function Min(s: seq<real>): (m: real)
    requires |s| > 0
    ensures m in s
    ensures forall i :: 0 <= i < |s| ==> m <= s[i]
  {
    if |s| == 1 then s[0]
    else
      var rest := Min(s[..|s| - 1]);
      if s[|s| - 1] < rest then s[|s| - 1] else rest
  }

  /** `List.indexOf`: the first position holding `x`, or -1. */
  function IndexOf<T(==)>(s: seq<T>, x: T): (i: int)
    ensures -1 <= i < |s|
    ensures i >= 0 ==> s[i] == x && forall k :: 0 <= k < i ==> s[k] != x
    ensures i == -1 <==> x !in s
  {
    if |s| == 0 then -1
    else if s[0] == x then 0
    else
      var rest := IndexOf(s[1..], x);
      if rest < 0 then -1 else rest + 1
  }

  /** `k` holds a smallest value and every earlier value is larger. */
  predicate IsFirstMin(s: seq<real>, k: int)
  {
    && 0 <= k < |s|
    && (forall i :: 0 <= i < |s| ==> s[k] <= s[i])
    && (forall i :: 0 <= i < k ==> s[i] > s[k])
  }

  /** Line 111: `variance.indexOf(Collections.min(variance))`. */
  function FirstMinIndex(s: seq<real>): (k: nat)
    requires |s| > 0
    ensures IsFirstMin(s, k)
    ensures forall j :: IsFirstMin(s, j) ==> j == k
  {
    IndexOf(s, Min(s))
  }

  /** Lines 102-113: the threshold stored at the first minimum of the
      variances. Java throws on an empty list (`get(0)`,
      `Collections.min`) and on a threshold list too short for the index;
      both are `None` here. */
  function SelectedTreshold<T>(variance: seq<real>, treshold: seq<T>): (r: Option<T>)
    ensures r.Some? <==> exists k :: IsFirstMin(variance, k) && k < |treshold|
    ensures r.Some? ==> exists k :: IsFirstMin(variance, k) && k < |treshold| && r.value == treshold[k]
  {
    if |variance| == 0 then None
    else
      var k := FirstMinIndex(variance);
      if k < |treshold| then Some(treshold[k]) else None
  }

  /** Lines 103-110: the strict `<` scan that computes `minIndex2`, whose
      result the program never uses. It finds the same index as line 111. */
  method MinIndexScan(variance: seq<real>) returns (r: Option<nat>)
    ensures r.None? <==> |variance| == 0
    ensures r.Some? ==> IsFirstMin(variance, r.value)
    ensures r.Some? ==> r.value == FirstMinIndex(variance)
  {
    if |variance| == 0 {
      return None;
    }
    var min := variance[0];
    var minIndex := 0;
    var i := 0;
    while i < |variance|
      invariant 0 <= minIndex <= i <= |variance|
      invariant minIndex < |variance| && min == variance[minIndex]
      invariant forall k :: 0 <= k < i ==> min <= variance[k]
      invariant forall k :: 0 <= k < minIndex ==> variance[k] > min
    {
      if variance[i] < min {
        min := variance[i];
        minIndex := i;
      }
      i := i + 1;
    }
    r := Some(minIndex);
  }

  /** The selection depends only on how the variances compare with each
      other: a transformation that keeps every comparison keeps the index. */
  lemma FirstMinOrderInvariant(s: seq<real>, t: seq<real>)
    requires |s| == |t| > 0
    requires forall i, j :: 0 <= i < |s| && 0 <= j < |s| ==> (s[i] <= s[j] <==> t[i] <= t[j])
    ensures FirstMinIndex(t) == FirstMinIndex(s)
  {
    var k := FirstMinIndex(s);
    assert IsFirstMin(t, k) by {
      forall i | 0 <= i < |t|
        ensures t[k] <= t[i]
      {
        assert s[k] <= s[i];
      }
      forall i | 0 <= i < k
        ensures t[i] > t[k]
      {
        assert !(s[i] <= s[k]);
      }
    }
  }

  /** Lines 102-113 as written: the unused strict scan, then
      `indexOf(Collections.min(variance))` and the threshold stored there.
      Java throws on an empty variance list or a short threshold list;
      both are `None` here. */
  method GetSelectedTreshold<T>(variance: seq<real>, treshold: seq<T>) returns (r: Option<T>)
    ensures r == SelectedTreshold(variance, treshold)
    ensures r.Some? ==> exists k :: IsFirstMin(variance, k) && k < |treshold| && r.value == treshold[k]
  {
    if |variance| == 0 {
      return None;
    }
    var minIndex2 := MinIndexScan(variance);
    var minIndex := IndexOf(variance, Min(variance));
    if minIndex < |treshold| {
      r := Some(treshold[minIndex]);
    } else {
      r := None;
    }
  }
}
