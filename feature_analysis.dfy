/**
 * split_data of src/FeatureAnalysis/feature_analysis.py: separate the outcome
 * column, standardise the features with one scaler fitted on every row, and cut
 * a fixed permutation of the rows into a 30% test part and the rest.  The fitted
 * scaler is an oracle returning a row map; the permutation stands for
 * train_test_split's draw with random_state=42.
 */
module FeatureAnalysis {
  import opened Wrappers
  import opened Frames

  /** numpy's astype(int) on one cell: truncation toward zero; NaN and text raise. */
  function CastInt(v: Value): (r: Option<int>)
    ensures r.Some? <==> v.Num?
    ensures r.Some? && v.x >= 0.0 ==> r.value as real <= v.x < r.value as real + 1.0
    ensures r.Some? && v.x < 0.0 ==> r.value as real - 1.0 < v.x <= r.value as real
  {
    match v
    case Num(x) => Some(if x >= 0.0 then x.Floor else -((-x).Floor))
    case _ => None
  }

  /** The outcome column cast to int, or None when some cell cannot be cast. */
  function CastLabels(col: seq<Value>): (r: Option<seq<int>>)
    ensures r.Some? <==> forall i :: 0 <= i < |col| ==> CastInt(col[i]).Some?
    ensures r.Some? ==> |r.value| == |col| && forall i :: 0 <= i < |col| ==> Some(r.value[i]) == CastInt(col[i])
  {
    if forall i | 0 <= i < |col| :: CastInt(col[i]).Some? then
      Some(seq(|col|, i requires 0 <= i < |col| => CastInt(col[i]).value))
    else None
  }

  /** A row without its cell at position j; the other cells keep their order. */
  function DropAt(row: Row, j: nat): (r: Row)
    requires j < |row|
    ensures |r| == |row| - 1
    ensures forall i :: 0 <= i < j ==> r[i] == row[i]
    ensures forall i :: j <= i < |r| ==> r[i] == row[i + 1]
  {
    row[..j] + row[j + 1..]
  }

  /** df.drop(columns=[outcome]) on the rows. */
  function Features(rows: seq<Row>, j: nat): (x: seq<Row>)
    requires forall i :: 0 <= i < |rows| ==> j < |rows[i]|
    ensures |x| == |rows| && forall i :: 0 <= i < |rows| ==> x[i] == DropAt(rows[i], j)
  {
    seq(|rows|, i requires 0 <= i < |rows| => DropAt(rows[i], j))
  }

  /** The number of test rows for test_size = 0.3: the ceiling of 3n/10, the least k with 10k >= 3n. */
  function TestSize(n: nat): (k: nat)
    ensures 10 * k >= 3 * n
    ensures k == 0 || 10 * (k - 1) < 3 * n
    ensures k <= n
  {
    (3 * n + 9) / 10
  }

  /** The training part is empty, which train_test_split refuses, exactly for n <= 1. */
  lemma TrainPartNonEmpty(n: nat)
    ensures n - TestSize(n) > 0 <==> n >= 2
  {
  }

  /** Six rows give four training rows and two test rows. */
  lemma SixRows()
    ensures TestSize(6) == 2 && 6 - TestSize(6) == 4
  {
  }

  datatype Split = Split(xTrain: seq<seq<real>>, xTest: seq<seq<real>>, yTrain: seq<int>, yTest: seq<int>)

  /**
   * What split_data promises: the test part is the first TestSize(n) rows of the
   * permutation and the training part the rest; features pass through the one
   * fitted row map, labels are the cast outcome cells of the same rows.
   */
  ghost predicate SplitOf(rows: seq<Row>, j: nat, scale: Row -> seq<real>, perm: seq<nat>, r: Split)
    requires forall i :: 0 <= i < |rows| ==> j < |rows[i]|
    requires IsPermutation(perm, |rows|)
  {
    var n, k := |rows|, TestSize(|rows|);
    && k <= n
    && |r.xTest| == |r.yTest| == k
    && |r.xTrain| == |r.yTrain| == n - k
    && (forall i :: 0 <= i < k ==>
          perm[i] < n
          && r.xTest[i] == scale(DropAt(rows[perm[i]], j))
          && Some(r.yTest[i]) == CastInt(rows[perm[i]][j]))
    && (forall i :: 0 <= i < n - k ==>
          perm[k + i] < n
          && r.xTrain[i] == scale(DropAt(rows[perm[k + i]], j))
          && Some(r.yTrain[i]) == CastInt(rows[perm[k + i]][j]))
  }

  /**
   * split_data: None (the four Nones) when the outcome column is missing, when a
   * label cannot be cast, when the scaler raises, or when the training part would
   * be empty.
   */
  function SplitData(df: Frame, outcome: string, fit: seq<Row> -> Option<Row -> seq<real>>, perm: seq<nat>)
    : (r: Option<Split>)
    requires WellFormed(df)
    requires IsPermutation(perm, |df.rows|)
    ensures outcome !in df.columns ==> r.None?
    ensures outcome in df.columns ==>
      var j := IndexOf(df.columns, outcome).value;
      && (r.Some? <==>
            && CastLabels(Column(df.rows, j)).Some?
            && fit(Features(df.rows, j)).Some?
            && |df.rows| >= 2)
      && (r.Some? ==> SplitOf(df.rows, j, fit(Features(df.rows, j)).value, perm, r.value))
  {
    match IndexOf(df.columns, outcome)
    case None => None
    case Some(j) =>
      var n := |df.rows|;
      match CastLabels(Column(df.rows, j))
      case None => None
      case Some(y) =>
        var x := Features(df.rows, j);
        match fit(x)
        case None => None
        case Some(scale) =>
          var scaled := seq(n, i requires 0 <= i < n => scale(x[i]));
          var k := TestSize(n);
          TrainPartNonEmpty(n);
          if n - k == 0 then None
          else
            PermutationInBounds(perm, n);
            assert InBounds(perm[..k], n) && InBounds(perm[k..], n);
            Some(Split(Permute(scaled, perm[k..]), Permute(scaled, perm[..k]),
                       Permute(y, perm[k..]), Permute(y, perm[..k])))
  }

  /** Every row lands in exactly one of the two parts. */
  lemma SplitIsPartition(n: nat, perm: seq<nat>, row: nat)
    requires IsPermutation(perm, n) && row < n
    ensures (row in perm[..TestSize(n)]) != (row in perm[TestSize(n)..])
  {
    PermutationCut(perm, n, TestSize(n), row);
  }
}
