/**
 * balance_data of src/FeatureAnalysis/balancing.py: keep every stroke case, draw
 * as many non-stroke cases without replacement, shuffle, and renumber the rows.
 * The random draw and the shuffle are parameters: pick lists the drawn positions
 * among the class-0 rows, perm the shuffled order of the concatenation.
 */
module Balancing {
  import opened Wrappers
  import opened Frames

  /** The default target column. */
  const DefaultTarget: string := "stroke"

  ghost predicate OfClass(row: Row, j: nat, c: real)
  {
    j < |row| && row[j] == Num(c)
  }

  predicate Cells(rows: seq<Row>, j: nat)
  {
    forall i :: 0 <= i < |rows| ==> j < |rows[i]|
  }

  /** df[df[target] == c]: the rows whose target cell is the number c, in their order. */
  function RowsOfClass(rows: seq<Row>, j: nat, c: real): (r: seq<Row>)
    requires Cells(rows, j)
    ensures Cells(r, j) && forall i :: 0 <= i < |r| ==> r[i][j] == Num(c)
    ensures forall row :: multiset(r)[row] == if OfClass(row, j, c) then multiset(rows)[row] else 0
  {
    if |rows| == 0 then []
    else
      var init, last := rows[..|rows| - 1], rows[|rows| - 1];
      assert rows == init + [last];
      var r := RowsOfClass(init, j, c);
      if last[j] == Num(c) then r + [last] else r
  }

  /** Dropping the position n from distinct positions below n + 1 leaves distinct positions below n. */
  lemma DropLast(pick: seq<nat>, k: nat, n: nat)
    requires InBounds(pick, n + 1) && Distinct(pick) && k < |pick| && pick[k] == n
    ensures InBounds(pick[..k] + pick[k + 1..], n) && Distinct(pick[..k] + pick[k + 1..])
  {
    var rest := pick[..k] + pick[k + 1..];
    assert forall i :: 0 <= i < |rest| ==> rest[i] == (if i < k then pick[i] else pick[i + 1]);
  }

  /** Positions within a prefix pick the same elements from the prefix. */
  lemma PermutePrefix<T>(s: seq<T>, n: nat, p: seq<nat>)
    requires n <= |s| && InBounds(p, n)
    ensures Permute(s, p) == Permute(s[..n], p)
  {
  }

  /** Drawing distinct positions never takes a row more often than it occurs. */
  lemma {:induction false} SampleSubMultiset<T>(s: seq<T>, pick: seq<nat>)
    requires InBounds(pick, |s|) && Distinct(pick)
    ensures multiset(Permute(s, pick)) <= multiset(s)
    decreases |s|
  {
    if |s| > 0 {
      var n := |s| - 1;
      var init := s[..n];
      assert multiset(s) == multiset(init) + multiset{s[n]} by {
        assert s == init + [s[n]];
      }
      if n in pick {
        var k :| 0 <= k < |pick| && pick[k] == n;
        var rest := pick[..k] + pick[k + 1..];
        PermuteSplitAt(s, pick, k);
        DropLast(pick, k, n);
        SampleSubMultiset(init, rest);
        PermutePrefix(s, n, rest);
      } else {
        assert InBounds(pick, n);
        SampleSubMultiset(init, pick);
        PermutePrefix(s, n, pick);
      }
    }
  }

  /** The sample and the shuffle fit the frame whenever sample() would not raise. */
  predicate DrawsFit(df: Frame, target: string, pick: seq<nat>, perm: seq<nat>)
    requires WellFormed(df)
  {
    match IndexOf(df.columns, target)
    case None => true
    case Some(j) =>
      var ones, zeros := RowsOfClass(df.rows, j, 1.0), RowsOfClass(df.rows, j, 0.0);
      |zeros| >= |ones| ==> IsSample(pick, |zeros|, |ones|) && IsPermutation(perm, 2 * |ones|)
  }

  /** What balance_data promises of its result out, for the target column at position j. */
  ghost predicate Balanced(df: Frame, j: nat, out: Frame)
    requires WellFormed(df) && j < |df.columns|
  {
    var ones := RowsOfClass(df.rows, j, 1.0);
    && WellFormed(out)
    && out.columns == df.columns
    && out.index == Range(|out.rows|)
    && |out.rows| == 2 * |ones|
    // the target column holds 1 and 0 equally often, and nothing else
    && multiset(Column(out.rows, j))[Num(1.0)] == |ones|
    && multiset(Column(out.rows, j))[Num(0.0)] == |ones|
    && (forall i :: 0 <= i < |out.rows| ==> out.rows[i][j] == Num(1.0) || out.rows[i][j] == Num(0.0))
    // every stroke case is kept exactly once; non-stroke cases are drawn without replacement
    && (forall row :: OfClass(row, j, 1.0) ==> multiset(out.rows)[row] == multiset(df.rows)[row])
    && (forall row :: OfClass(row, j, 0.0) ==> multiset(out.rows)[row] <= multiset(df.rows)[row])
  }

  lemma ColumnPermute(rows: seq<Row>, j: nat, perm: seq<nat>)
    requires Cells(rows, j) && InBounds(perm, |rows|)
    ensures Cells(Permute(rows, perm), j)
    ensures Column(Permute(rows, perm), j) == Permute(Column(rows, j), perm)
  {
  }

  lemma ColumnConcat(a: seq<Row>, b: seq<Row>, j: nat)
    requires Cells(a, j) && Cells(b, j)
    ensures Cells(a + b, j) && Column(a + b, j) == Column(a, j) + Column(b, j)
  {
  }

  /** Rows taken from a well-formed frame have one cell per column. */
  lemma RowsHaveWidth(df: Frame, rows: seq<Row>)
    requires WellFormed(df)
    requires multiset(rows) <= multiset(df.rows)
    ensures forall i :: 0 <= i < |rows| ==> |rows[i]| == |df.columns|
  {
    forall i | 0 <= i < |rows| ensures |rows[i]| == |df.columns| {
      assert rows[i] in multiset(rows);
      assert rows[i] in multiset(df.rows);
    }
  }

  /** Counting the target column of the shuffled concatenation. */
  lemma TargetCounts(ones: seq<Row>, drawn: seq<Row>, j: nat, perm: seq<nat>)
    requires Cells(ones, j) && Cells(drawn, j)
    requires forall i :: 0 <= i < |ones| ==> ones[i][j] == Num(1.0)
    requires forall i :: 0 <= i < |drawn| ==> drawn[i][j] == Num(0.0)
    requires IsPermutation(perm, |ones + drawn|)
    ensures InBounds(perm, |ones + drawn|)
    ensures Cells(Permute(ones + drawn, perm), j)
    ensures multiset(Column(Permute(ones + drawn, perm), j))[Num(1.0)] == |ones|
    ensures multiset(Column(Permute(ones + drawn, perm), j))[Num(0.0)] == |drawn|
  {
    var both := ones + drawn;
    PermutationInBounds(perm, |both|);
    ColumnConcat(ones, drawn, j);
    ColumnPermute(both, j, perm);
    PermuteMultiset(Column(both, j), perm);
    CountConstant(Column(ones, j), Num(1.0));
    CountAbsent(Column(drawn, j), Num(1.0));
    CountConstant(Column(drawn, j), Num(0.0));
    CountAbsent(Column(ones, j), Num(0.0));
  }

  /** Counting whole rows of the shuffled concatenation. */
  lemma RowCounts(df: Frame, j: nat, pick: seq<nat>, perm: seq<nat>)
    requires WellFormed(df) && j < |df.columns|
    requires IsSample(pick, |RowsOfClass(df.rows, j, 0.0)|, |RowsOfClass(df.rows, j, 1.0)|)
    requires IsPermutation(perm, 2 * |RowsOfClass(df.rows, j, 1.0)|)
    ensures
      var ones, zeros := RowsOfClass(df.rows, j, 1.0), RowsOfClass(df.rows, j, 0.0);
      var both := ones + Permute(zeros, pick);
      && InBounds(perm, |both|)
      && multiset(Permute(both, perm)) <= multiset(df.rows)
      && (forall row :: OfClass(row, j, 1.0) ==> multiset(Permute(both, perm))[row] == multiset(df.rows)[row])
      && (forall row :: OfClass(row, j, 0.0) ==> multiset(Permute(both, perm))[row] <= multiset(df.rows)[row])
  {
    var ones, zeros := RowsOfClass(df.rows, j, 1.0), RowsOfClass(df.rows, j, 0.0);
    var drawn := Permute(zeros, pick);
    var both := ones + drawn;
    PermuteMultiset(both, perm);
    SampleSubMultiset(zeros, pick);
    var out := Permute(both, perm);
    assert multiset(out) == multiset(ones) + multiset(drawn);
    forall row ensures multiset(out)[row] <= multiset(df.rows)[row] {
      if OfClass(row, j, 1.0) {
        assert row !in drawn;
      } else if OfClass(row, j, 0.0) {
        assert row !in ones;
      } else {
        assert row !in drawn && row !in ones;
      }
    }
    forall row | OfClass(row, j, 1.0) ensures multiset(out)[row] == multiset(df.rows)[row] {
      assert row !in drawn;
    }
  }

  /** The construction below meets Balanced. */
  lemma BalancedConstruction(df: Frame, j: nat, pick: seq<nat>, perm: seq<nat>)
    requires WellFormed(df) && j < |df.columns|
    requires IsSample(pick, |RowsOfClass(df.rows, j, 0.0)|, |RowsOfClass(df.rows, j, 1.0)|)
    requires IsPermutation(perm, 2 * |RowsOfClass(df.rows, j, 1.0)|)
    ensures
      var ones, zeros := RowsOfClass(df.rows, j, 1.0), RowsOfClass(df.rows, j, 0.0);
      var both := ones + Permute(zeros, pick);
      && InBounds(perm, |both|)
      && Balanced(df, j, Frame(df.columns, Range(|both|), Permute(both, perm)))
  {
    var ones, zeros := RowsOfClass(df.rows, j, 1.0), RowsOfClass(df.rows, j, 0.0);
    var drawn := Permute(zeros, pick);
    var both := ones + drawn;
    RowCounts(df, j, pick, perm);
    var out := Permute(both, perm);
    RowsHaveWidth(df, out);
    TargetCounts(ones, drawn, j, perm);
    assert forall i :: 0 <= i < |out| ==> out[i][j] == Num(1.0) || out[i][j] == Num(0.0) by {
      assert forall i :: 0 <= i < |out| ==> out[i] == both[perm[i]];
    }
  }

  /**
   * balance_data: None when the target column is missing or there are fewer
   * class-0 rows than class-1 rows (sample without replacement raises).
   */
  function BalanceData(df: Frame, pick: seq<nat>, perm: seq<nat>, target: string := DefaultTarget): (r: Option<Frame>)
    requires WellFormed(df)
    requires DrawsFit(df, target, pick, perm)
    ensures target !in df.columns ==> r.None?
    ensures target in df.columns ==>
      var j := IndexOf(df.columns, target).value;
      && (r.Some? <==> |RowsOfClass(df.rows, j, 0.0)| >= |RowsOfClass(df.rows, j, 1.0)|)
      && (r.Some? ==> Balanced(df, j, r.value))
  {
    match IndexOf(df.columns, target)
    case None => None
    case Some(j) =>
      var ones := RowsOfClass(df.rows, j, 1.0);
      var zeros := RowsOfClass(df.rows, j, 0.0);
      if |zeros| < |ones| then None
      else
        BalancedConstruction(df, j, pick, perm);
        var both := ones + Permute(zeros, pick);
        Some(Frame(df.columns, Range(|both|), Permute(both, perm)))
  }
}
