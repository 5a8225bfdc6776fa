/** The histogram pass of `getOtsuMatrix`: one count per grey level
    0..255 over every entry of a (possibly ragged) integer matrix. */
module Histograms {
  import opened Wrappers
  import opened Vectors

  /** Number of grey levels, the length of the `counts` array. */
  const LevelCount: int := 256

  /** The entries of a matrix in row-major order. */
  function Flatten(m: seq<seq<int>>): seq<int>
  {
    if |m| == 0 then [] else Flatten(m[..|m| - 1]) + m[|m| - 1]
  }

  /** Reference count: how many entries of `s` equal `v`. */
  function Occurrences(s: seq<int>, v: int): nat
  {
    if |s| == 0 then 0 else Occurrences(s[..|s| - 1], v) + (if s[|s| - 1] == v then 1 else 0)
  }

  /** Every entry is a valid index into `counts`. */
  predicate InRange(m: seq<seq<int>>)
  {
    forall i, j :: 0 <= i < |m| && 0 <= j < |m[i]| ==> 0 <= m[i][j] < LevelCount
  }

  /** A histogram as the rest of the program receives it: 256
      non-negative counts. */
  predicate IsHistogram(counts: seq<int>)
  {
    |counts| == LevelCount && forall v :: 0 <= v < |counts| ==> counts[v] >= 0
  }

  /** The histogram of a matrix, or `None` when an entry lies outside
      [0, 255] (Java throws `ArrayIndexOutOfBoundsException` there). */
  function Histogram(m: seq<seq<int>>): (r: Option<seq<int>>)
    ensures r.Some? <==> InRange(m)
    ensures r.Some? ==> |r.value| == LevelCount
    ensures r.Some? ==> forall v :: 0 <= v < LevelCount ==> r.value[v] == Occurrences(Flatten(m), v)
  {
    if InRange(m) then Some(seq(LevelCount, v => Occurrences(Flatten(m), v))) else None
  }

  lemma {:induction false} OccurrencesAppend(s: seq<int>, x: int, v: int)
    ensures Occurrences(s + [x], v) == Occurrences(s, v) + (if x == v then 1 else 0)
  {
    assert (s + [x])[..|s + [x]| - 1] == s;
  }

  lemma {:induction false} FlattenPrefix(m: seq<seq<int>>, i: nat)
    requires i < |m|
    ensures Flatten(m[..i + 1]) == Flatten(m[..i]) + m[i]
  {
    assert m[..i + 1][..i] == m[..i];
  }

  /** The inner loop of lines 57-63 over one row: `counts[pos] += 1` for
      every entry. An entry outside [0, 255] aborts the pass. */
  method CountRow(counts: seq<int>, seen: seq<int>, row: seq<int>) returns (r: Option<seq<int>>)
    requires |counts| == LevelCount && Sum(counts) == |seen|
    requires forall v :: 0 <= v < LevelCount ==> counts[v] == Occurrences(seen, v)
    ensures r.Some? <==> forall k :: 0 <= k < |row| ==> 0 <= row[k] < LevelCount
    ensures r.Some? ==> |r.value| == LevelCount && Sum(r.value) == |seen + row|
    ensures r.Some? ==> forall v :: 0 <= v < LevelCount ==> r.value[v] == Occurrences(seen + row, v)
  {
    var acc := counts;
    var j := 0;
    assert seen + row[..0] == seen;
    while j < |row|
      invariant 0 <= j <= |row|
      invariant |acc| == LevelCount
      invariant forall k :: 0 <= k < j ==> 0 <= row[k] < LevelCount
      invariant forall v :: 0 <= v < LevelCount ==> acc[v] == Occurrences(seen + row[..j], v)
      invariant Sum(acc) == |seen| + j
    {
      var pos := row[j];
      if !(0 <= pos < LevelCount) {
        return None;
      }
      SumUpdate(acc, pos, 1);
      acc := acc[pos := acc[pos] + 1];
      assert seen + row[..j] + [pos] == seen + row[..j + 1];
      forall v | 0 <= v < LevelCount
        ensures acc[v] == Occurrences(seen + row[..j + 1], v)
      {
        OccurrencesAppend(seen + row[..j], pos, v);
      }
      j := j + 1;
    }
    assert row[..j] == row;
    r := Some(acc);
  }

  /** The loop pair of lines 57-63 over the rows of the matrix, in
      row-major order. The first entry outside [0, 255] aborts the pass. */
  method BuildHistogram(matrix: seq<seq<int>>) returns (r: Option<seq<int>>)
    ensures r.Some? <==> InRange(matrix)
    ensures r.Some? ==> |r.value| == LevelCount
    ensures r.Some? ==> forall v :: 0 <= v < LevelCount ==> r.value[v] == Occurrences(Flatten(matrix), v)
    ensures r.Some? ==> Sum(r.value) == |Flatten(matrix)|
    ensures r == Histogram(matrix)
  {
    var counts: seq<int> := seq(LevelCount, _ => 0);
    assert Sum(counts) == 0 by {
      SumPadded([], LevelCount);
      assert [] + seq(LevelCount, _ => 0) == counts;
    }
    var i := 0;
    while i < |matrix|
      invariant 0 <= i <= |matrix|
      invariant |counts| == LevelCount
      invariant InRange(matrix[..i])
      invariant forall v :: 0 <= v < LevelCount ==> counts[v] == Occurrences(Flatten(matrix[..i]), v)
      invariant Sum(counts) == |Flatten(matrix[..i])|
    {
      var row := CountRow(counts, Flatten(matrix[..i]), matrix[i]);
      if row.None? {
        return None;
      }
      counts := row.value;
      FlattenPrefix(matrix, i);
      i := i + 1;
    }
    assert matrix[..i] == matrix;
    assert counts == seq(LevelCount, v => Occurrences(Flatten(matrix), v));
    r := Some(counts);
  }

  /** The counts of a histogram add up to the number of matrix entries. */
  lemma {:induction false} HistogramSum(m: seq<seq<int>>)
    requires InRange(m)
    ensures Histogram(m).Some? && IsHistogram(Histogram(m).value)
    ensures Sum(Histogram(m).value) == |Flatten(m)|
  {
    FlattenInRange(m);
    TallySum(Flatten(m));
    assert Histogram(m).value == seq(LevelCount, v => Occurrences(Flatten(m), v));
  }

  lemma {:induction false} FlattenInRange(m: seq<seq<int>>)
    requires InRange(m)
    ensures forall k :: 0 <= k < |Flatten(m)| ==> 0 <= Flatten(m)[k] < LevelCount
  {
    if |m| > 0 {
      assert InRange(m[..|m| - 1]);
      FlattenInRange(m[..|m| - 1]);
    }
  }

  lemma {:induction false} TallySum(s: seq<int>)
    requires forall k :: 0 <= k < |s| ==> 0 <= s[k] < LevelCount
    ensures Sum(seq(LevelCount, v => Occurrences(s, v))) == |s|
  {
    if |s| == 0 {
      var zero := seq(LevelCount, v => Occurrences(s, v));
      assert zero == [] + seq(LevelCount, _ => 0);
      SumPadded([], LevelCount);
    } else {
      var init := s[..|s| - 1];
      var x := s[|s| - 1];
      TallySum(init);
      var before := seq(LevelCount, v => Occurrences(init, v));
      var after := seq(LevelCount, v => Occurrences(s, v));
      forall v | 0 <= v < LevelCount
        ensures after[v] == before[x := before[x] + 1][v]
      {
        assert init + [x] == s;
        OccurrencesAppend(init, x, v);
      }
      assert after == before[x := before[x] + 1];
      SumUpdate(before, x, 1);
    }
  }

  /** For a rectangular matrix the entry count is height times width. */
  lemma {:induction false} FlattenSize(m: seq<seq<int>>, width: nat)
    requires forall i :: 0 <= i < |m| ==> |m[i]| == width
    ensures |Flatten(m)| == |m| * width
  {
    if |m| > 0 {
      FlattenSize(m[..|m| - 1], width);
    }
  }

  lemma {:induction false} FlattenAvoids(m: seq<seq<int>>, v: int)
    requires forall i, j :: 0 <= i < |m| && 0 <= j < |m[i]| ==> m[i][j] != v
    ensures v !in Flatten(m)
  {
    if |m| > 0 {
      FlattenAvoids(m[..|m| - 1], v);
    }
  }

  lemma {:induction false} FlattenHas(m: seq<seq<int>>, i: int, j: int)
    requires 0 <= i < |m| && 0 <= j < |m[i]|
    ensures m[i][j] in Flatten(m)
  {
    var init := m[..|m| - 1];
    assert Flatten(m) == Flatten(init) + m[|m| - 1];
    if i == |m| - 1 {
      assert Flatten(m)[|Flatten(init)| + j] == m[i][j];
    } else {
      assert init[i] == m[i];
      FlattenHas(init, i, j);
    }
  }

  /** `Occurrences` counts exactly the values that occur. */
  lemma {:induction false} OccurrencesPositive(s: seq<int>, v: int)
    ensures Occurrences(s, v) > 0 <==> v in s
  {
    if |s| > 0 {
      var init := s[..|s| - 1];
      assert s == init + [s[|s| - 1]];
      OccurrencesPositive(init, v);
    }
  }

  /** A level that no entry holds has count 0; a level some entry holds has
      a positive count. */
  lemma HistogramSupport(m: seq<seq<int>>, v: int)
    requires InRange(m) && 0 <= v < LevelCount
    ensures Histogram(m).Some?
    ensures (forall i, j :: 0 <= i < |m| && 0 <= j < |m[i]| ==> m[i][j] != v) ==> Histogram(m).value[v] == 0
    ensures (exists i, j :: 0 <= i < |m| && 0 <= j < |m[i]| && m[i][j] == v) ==> Histogram(m).value[v] > 0
  {
    OccurrencesPositive(Flatten(m), v);
    if forall i, j :: 0 <= i < |m| && 0 <= j < |m[i]| ==> m[i][j] != v {
      FlattenAvoids(m, v);
    } else {
      var i, j :| 0 <= i < |m| && 0 <= j < |m[i]| && m[i][j] == v;
      FlattenHas(m, i, j);
    }
  }
}
