/**
 * The cleaning steps of src/Preprocessing/preprocessing.py: the categorical
 * encoder and the three-stage BMI imputation.
 */
module Preprocessing {
  import opened Wrappers
  import opened Frames
  import Stats

  // ---------------------------------------------------------------------------
  // encode_columns
  // ---------------------------------------------------------------------------

  /** An encoding dictionary: column name to value map, in insertion order. */
  type Encoding = seq<(string, map<string, int>)>

  /** The value map the dictionary holds for a column (its last entry for that column). */
  function MappingFor(e: Encoding, column: string): (m: Option<map<string, int>>)
    ensures m.None? <==> column !in Keys(e)
  {
    if |e| == 0 then None
    else if e[|e| - 1].0 == column then Some(e[|e| - 1].1)
    else
      assert Keys(e) == Keys(e[..|e| - 1]) + [e[|e| - 1].0];
      MappingFor(e[..|e| - 1], column)
  }

  /** The map the dictionary holds for a column is that of the column's last entry. */
  lemma {:induction false} MappingForLastEntry(e: Encoding, k: nat)
    requires k < |e| && LastOfKey(e, k)
    ensures MappingFor(e, e[k].0) == Some(e[k].1)
  {
    var n := |e| - 1;
    if k < n {
      assert e[n].0 != e[k].0;
      LastOfKeyInPrefix(e, k);
      MappingForLastEntry(e[..n], k);
    }
  }

  /** Series.map(mapping) on one cell: the mapped number, or NaN for a value the map lacks. */
  function MapCell(v: Value, mapping: map<string, int>): (r: Value)
    ensures r != Missing <==> v.Text? && v.s in mapping
    ensures r != Missing ==> r == Num(mapping[v.s] as real)
  {
    if v.Text? && v.s in mapping then Num(mapping[v.s] as real) else Missing
  }

  /** The column at j, mapped and cast to int; None when a cell maps to NaN (astype(int) raises). */
  function EncodeColumn(rows: seq<Row>, j: nat, mapping: map<string, int>): (r: Option<seq<Row>>)
    requires forall i :: 0 <= i < |rows| ==> j < |rows[i]|
    ensures r.Some? <==> forall i :: 0 <= i < |rows| ==> MapCell(rows[i][j], mapping) != Missing
    ensures r.Some? ==> |r.value| == |rows|
    ensures r.Some? ==>
      forall i :: 0 <= i < |rows| ==> r.value[i] == rows[i][j := MapCell(rows[i][j], mapping)]
  {
    if forall i | 0 <= i < |rows| :: MapCell(rows[i][j], mapping) != Missing then
      Some(seq(|rows|, i requires 0 <= i < |rows| => rows[i][j := MapCell(rows[i][j], mapping)]))
    else None
  }

  /** encode_columns either returns the encoded copy or raises while casting a column. */
  datatype EncodeOutcome = Encoded(frame: Frame) | CastError(column: string)

  /** The entry (column, mapping) encodes df without a NaN: absent column, or every value mapped. */
  predicate EntryApplies(df: Frame, entry: (string, map<string, int>))
    requires WellFormed(df)
  {
    match IndexOf(df.columns, entry.0)
    case None => true
    case Some(j) => forall i :: 0 <= i < |df.rows| ==> MapCell(df.rows[i][j], entry.1) != Missing
  }

  /** The cell df has after encoding: mapped where the dictionary names its column, else as it was. */
  function EncodedCell(df: Frame, e: Encoding, i: nat, j: nat): Value
    requires WellFormed(df) && i < |df.rows| && j < |df.columns|
  {
    match MappingFor(e, df.columns[j])
    case None => df.rows[i][j]
    case Some(m) => MapCell(df.rows[i][j], m)
  }

  /** How the cells the dictionary prescribes change when one more entry is taken into account. */
  lemma EncodedCellStep(df: Frame, e: Encoding, k: nat, i: nat, j: nat)
    requires WellFormed(df) && Distinct(Keys(e)) && k < |e| && i < |df.rows| && j < |df.columns|
    ensures df.columns[j] != e[k].0 ==> EncodedCell(df, e[..k + 1], i, j) == EncodedCell(df, e[..k], i, j)
    ensures df.columns[j] == e[k].0 ==>
      && EncodedCell(df, e[..k], i, j) == df.rows[i][j]
      && EncodedCell(df, e[..k + 1], i, j) == MapCell(df.rows[i][j], e[k].1)
  {
    assert e[..k + 1][..k] == e[..k];
    if df.columns[j] == e[k].0 {
      assert e[k].0 !in Keys(e[..k]) by {
        assert forall t :: 0 <= t < k ==> Keys(e)[t] != Keys(e)[k];
      }
    }
  }

  /** The rows have the frame's shape and hold its cells encoded by the first k entries. */
  ghost predicate EncodedUpTo(df: Frame, e: Encoding, k: nat, rows: seq<Row>)
    requires WellFormed(df) && k <= |e|
  {
    && |rows| == |df.rows|
    && (forall i :: 0 <= i < |rows| ==> |rows[i]| == |df.columns|)
    && forall i, j :: 0 <= i < |df.rows| && 0 <= j < |df.columns| ==>
         rows[i][j] == EncodedCell(df, e[..k], i, j)
  }

  /** No entry taken into account: the rows are the frame's own. */
  lemma EncodedUpToStart(df: Frame, e: Encoding)
    requires WellFormed(df)
    ensures EncodedUpTo(df, e, 0, df.rows)
  {
    assert Keys(e[..0]) == [];
  }

  /** Rows holding the first k entries still hold the original cells of the column of entry k. */
  lemma NotYetEncoded(df: Frame, e: Encoding, k: nat, rows: seq<Row>, j: nat)
    requires WellFormed(df) && Distinct(Keys(e)) && k < |e|
    requires IndexOf(df.columns, e[k].0) == Some(j)
    requires EncodedUpTo(df, e, k, rows)
    ensures forall i :: 0 <= i < |rows| ==> j < |rows[i]| && rows[i][j] == df.rows[i][j]
    ensures EntryApplies(df, e[k]) <==> forall i :: 0 <= i < |rows| ==> MapCell(rows[i][j], e[k].1) != Missing
  {
    forall i | 0 <= i < |rows| ensures rows[i][j] == df.rows[i][j] {
      EncodedCellStep(df, e, k, i, j);
    }
  }

  /** After the entry for column j is applied to rows that hold the first k entries, they hold k + 1. */
  lemma EncodeStep(df: Frame, e: Encoding, k: nat, rows: seq<Row>, j: nat, rows': seq<Row>)
    requires WellFormed(df) && Distinct(Keys(e)) && k < |e|
    requires IndexOf(df.columns, e[k].0) == Some(j)
    requires EncodedUpTo(df, e, k, rows)
    requires |rows'| == |rows| && forall i :: 0 <= i < |rows| ==> rows'[i] == rows[i][j := MapCell(rows[i][j], e[k].1)]
    ensures EncodedUpTo(df, e, k + 1, rows')
  {
    NotYetEncoded(df, e, k, rows, j);
    forall i, jj | 0 <= i < |df.rows| && 0 <= jj < |df.columns|
      ensures rows'[i][jj] == EncodedCell(df, e[..k + 1], i, jj)
    {
      EncodedCellStep(df, e, k, i, jj);
      if jj != j {
        IndexOfDistinct(df.columns, jj);
      }
    }
  }

  /** An entry whose column the frame lacks prescribes nothing. */
  lemma EncodeSkip(df: Frame, e: Encoding, k: nat, rows: seq<Row>)
    requires WellFormed(df) && Distinct(Keys(e)) && k < |e| && e[k].0 !in df.columns
    requires EncodedUpTo(df, e, k, rows)
    ensures EncodedUpTo(df, e, k + 1, rows)
  {
    forall i, j | 0 <= i < |df.rows| && 0 <= j < |df.columns|
      ensures EncodedCell(df, e[..k + 1], i, j) == EncodedCell(df, e[..k], i, j)
    {
      EncodedCellStep(df, e, k, i, j);
    }
  }

  /** Rows holding every entry make the encoded frame. */
  lemma EncodedAll(df: Frame, e: Encoding, rows: seq<Row>)
    requires WellFormed(df) && EncodedUpTo(df, e, |e|, rows)
    ensures WellFormed(Frame(df.columns, df.index, rows))
    ensures forall i, j :: 0 <= i < |df.rows| && 0 <= j < |df.columns| ==>
      rows[i][j] == EncodedCell(df, e, i, j)
  {
    assert e[..|e|] == e;
  }

  /** Every one of the first k entries applies. */
  predicate AppliesUpTo(df: Frame, e: Encoding, k: nat)
    requires WellFormed(df) && k <= |e|
  {
    forall k' :: 0 <= k' < k ==> EntryApplies(df, e[k'])
  }

  /** One more entry that applies. */
  lemma AppliesNext(df: Frame, e: Encoding, k: nat)
    requires WellFormed(df) && k < |e| && AppliesUpTo(df, e, k) && EntryApplies(df, e[k])
    ensures AppliesUpTo(df, e, k + 1)
  {
  }

  /** An entry that does not apply while all before it do is the first such entry, and the only one. */
  lemma FirstFailure(df: Frame, e: Encoding, k: nat)
    requires WellFormed(df) && k < |e| && !EntryApplies(df, e[k]) && AppliesUpTo(df, e, k)
    ensures !AppliesUpTo(df, e, |e|)
    ensures forall t :: 0 <= t < |e| && !EntryApplies(df, e[t]) && AppliesUpTo(df, e, t) ==> t == k
  {
  }

  /**
   * One pass of the loop of encode_columns: when the frame has the entry's column,
   * the column mapped and cast (None when that raises), else the rows unchanged.
   */
  method EncodeEntry(df: Frame, encoding: Encoding, k: nat, rows: seq<Row>) returns (next: Option<seq<Row>>)
    requires WellFormed(df) && Distinct(Keys(encoding)) && k < |encoding|
    requires EncodedUpTo(df, encoding, k, rows)
    ensures next.Some? <==> EntryApplies(df, encoding[k])
    ensures next.Some? ==> EncodedUpTo(df, encoding, k + 1, next.value)
  {
    var found := IndexOf(df.columns, encoding[k].0);
    if found.None? {
      EncodeSkip(df, encoding, k, rows);
      return Some(rows);
    }
    var j := found.value;
    NotYetEncoded(df, encoding, k, rows, j);
    var encoded := EncodeColumn(rows, j, encoding[k].1);
    if encoded.None? {
      return None;
    }
    EncodeStep(df, encoding, k, rows, j, encoded.value);
    return encoded;
  }

  /**
   * encode_columns: works on a copy; for each dictionary entry whose column the frame
   * has, replaces the column by its mapped values.  An unmapped value raises, at the
   * first such entry in dictionary order.
   */
  method EncodeColumns(df: Frame, encoding: Encoding) returns (r: EncodeOutcome)
    requires WellFormed(df)
    requires Distinct(Keys(encoding))
    ensures r.Encoded? <==> AppliesUpTo(df, encoding, |encoding|)
    ensures forall k :: 0 <= k < |encoding| && !EntryApplies(df, encoding[k]) && AppliesUpTo(df, encoding, k) ==>
      r == CastError(encoding[k].0)
    ensures r.Encoded? ==>
      && WellFormed(r.frame)
      && r.frame.columns == df.columns && r.frame.index == df.index && |r.frame.rows| == |df.rows|
      && forall i, j :: 0 <= i < |df.rows| && 0 <= j < |df.columns| ==>
           r.frame.rows[i][j] == EncodedCell(df, encoding, i, j)
  {
    var rows := df.rows;
    EncodedUpToStart(df, encoding);
    for k := 0 to |encoding|
      invariant EncodedUpTo(df, encoding, k, rows)
      invariant AppliesUpTo(df, encoding, k)
    {
      var next := EncodeEntry(df, encoding, k, rows);
      if next.None? {
        FirstFailure(df, encoding, k);
        return CastError(encoding[k].0);
      }
      AppliesNext(df, encoding, k);
      rows := next.value;
    }
    EncodedAll(df, encoding, rows);
    r := Encoded(Frame(df.columns, df.index, rows));
  }

  // ---------------------------------------------------------------------------
  // fill_missing_bmi
  // ---------------------------------------------------------------------------

  /** A column pandas can treat as numeric: every cell a number or NaN. */
  predicate Numeric(col: seq<Value>)
  {
    forall i :: 0 <= i < |col| ==> !col[i].Text?
  }

  /** Every number in the column lies in [lo, hi]. */
  predicate Within(col: seq<Value>, lo: real, hi: real)
  {
    forall i :: 0 <= i < |col| ==> col[i].Num? ==> lo <= col[i].x <= hi
  }

  /** Strictly ascending positions. */
  predicate Increasing(p: seq<nat>)
  {
    forall s, t :: 0 <= s < t < |p| ==> p[s] < p[t]
  }

  /**
   * The rows of group `key` that hold a number, in row order: exactly the positions
   * whose key is `key` and whose value is a number, ascending.
   */
  function GroupRows<K(==)>(keys: seq<Option<K>>, vals: seq<Value>, key: K): (p: seq<nat>)
    requires |keys| == |vals|
    ensures Increasing(p)
    ensures forall t :: 0 <= t < |p| ==> p[t] < |vals| && keys[p[t]] == Some(key) && vals[p[t]].Num?
    ensures forall i :: 0 <= i < |vals| && keys[i] == Some(key) && vals[i].Num? ==> i in p
  {
    if |vals| == 0 then []
    else
      var n := |vals| - 1;
      var rest := GroupRows(keys[..n], vals[..n], key);
      if keys[n] == Some(key) && vals[n].Num? then rest + [n] else rest
  }

  /**
   * The values groupby gives to the group `key`: the numbers (NaN skipped) of the
   * rows whose key is `key`, in row order, each as often as it occurs.  A row
   * without a key (NaN in a grouping column) belongs to no group.
   */
  function Grouped<K(==)>(keys: seq<Option<K>>, vals: seq<Value>, key: K): (r: seq<real>)
    requires |keys| == |vals|
    ensures forall t :: 0 <= t < |r| ==>
      exists i :: 0 <= i < |vals| && keys[i] == Some(key) && vals[i] == Num(r[t])
    ensures forall i :: 0 <= i < |vals| && keys[i] == Some(key) && vals[i].Num? ==> vals[i].x in r
  {
    if |vals| == 0 then []
    else
      var n := |vals| - 1;
      var rest := Grouped(keys[..n], vals[..n], key);
      if keys[n] == Some(key) && vals[n].Num? then rest + [vals[n].x] else rest
  }

  /**
   * A group's values are those of its numbered rows taken in ascending row order,
   * one per row, so their multiplicities, on which the median depends, are the rows'.
   */
  lemma {:induction false} GroupedInRowOrder<K>(keys: seq<Option<K>>, vals: seq<Value>, key: K)
    requires |keys| == |vals|
    ensures var r, p := Grouped(keys, vals, key), GroupRows(keys, vals, key);
      |r| == |p| && forall t :: 0 <= t < |r| ==> vals[p[t]] == Num(r[t])
  {
    if |vals| > 0 {
      var n := |vals| - 1;
      var r, p := Grouped(keys, vals, key), GroupRows(keys, vals, key);
      var rest, prest := Grouped(keys[..n], vals[..n], key), GroupRows(keys[..n], vals[..n], key);
      GroupedInRowOrder(keys[..n], vals[..n], key);
      assert (vals[n].Num? && r == rest + [vals[n].x] && p == prest + [n]) || (r == rest && p == prest);
      GroupStep(vals, rest, prest, r, p);
    }
  }

  /**
   * One step of the induction above: the last row either adds itself to both the
   * positions and the values, or to neither.
   */
  lemma GroupStep(vals: seq<Value>, rest: seq<real>, prest: seq<nat>, r: seq<real>, p: seq<nat>)
    requires |vals| > 0 && |rest| == |prest|
    requires forall t :: 0 <= t < |rest| ==> prest[t] < |vals| - 1 && vals[..|vals| - 1][prest[t]] == Num(rest[t])
    requires var n := |vals| - 1;
      (vals[n].Num? && r == rest + [vals[n].x] && p == prest + [n]) || (r == rest && p == prest)
    ensures |r| == |p| && forall t :: 0 <= t < |r| ==> vals[p[t]] == Num(r[t])
  {
    var n := |vals| - 1;
    assert forall t :: 0 <= t < |rest| ==> vals[prest[t]] == Num(rest[t]) by {
      forall t | 0 <= t < |rest| ensures vals[prest[t]] == Num(rest[t]) {
        assert vals[..n][prest[t]] == vals[prest[t]];
      }
    }
  }

  /** The rows of a column that hold a number, ascending: the one group of a constant key. */
  ghost function NumberRows(col: seq<Value>): (p: seq<nat>)
    ensures Increasing(p)
    ensures forall t :: 0 <= t < |p| ==> p[t] < |col| && col[p[t]].Num?
    ensures forall i :: 0 <= i < |col| && col[i].Num? ==> i in p
  {
    GroupRows(seq(|col|, _ => Some(())), col, ())
  }

  /** The numbers of a column, in row order, each as often as it occurs (Series.median skips NaN). */
  function Present(col: seq<Value>): (r: seq<real>)
    ensures forall t :: 0 <= t < |r| ==> exists i :: 0 <= i < |col| && col[i] == Num(r[t])
    ensures forall i :: 0 <= i < |col| && col[i].Num? ==> col[i].x in r
  {
    Grouped(seq(|col|, _ => Some(())), col, ())
  }

  /** A column's numbers are those of its numbered rows in ascending row order, one per row. */
  lemma PresentInRowOrder(col: seq<Value>)
    ensures var r, p := Present(col), NumberRows(col);
      |r| == |p| && forall t :: 0 <= t < |r| ==> col[p[t]] == Num(r[t])
  {
    GroupedInRowOrder(seq(|col|, _ => Some(())), col, ());
  }

  /** A column's numbers lie between its least and its greatest number. */
  lemma PresentWithin(col: seq<Value>)
    requires |Present(col)| > 0
    ensures Within(col, Stats.Least(Present(col)), Stats.Greatest(Present(col)))
  {
  }

  /** An optional median as a cell: NaN when the group has no number. */
  function AsCell(m: Option<real>): Value
  {
    if m.Some? then Num(m.value) else Missing
  }

  /** Series.fillna(other): the cells of `a`, with each NaN taken from `other`. */
  function FillNa(a: seq<Value>, other: seq<Value>): (r: seq<Value>)
    requires |a| == |other|
    ensures |r| == |a|
    ensures forall i :: 0 <= i < |a| ==> a[i] != Missing ==> r[i] == a[i]
    ensures forall i :: 0 <= i < |a| ==> a[i] == Missing ==> r[i] == other[i]
  {
    seq(|a|, i requires 0 <= i < |a| => if a[i] == Missing then other[i] else a[i])
  }

  /**
   * groupby(keys)[vals].median() merged back onto the rows (a left merge on the keys):
   * each keyed row gets its group's median, NaN when that group has no number.
   */
  function GroupMedians<K(==)>(keys: seq<Option<K>>, vals: seq<Value>): (r: seq<Value>)
    requires |keys| == |vals|
    ensures |r| == |vals|
    ensures forall i :: 0 <= i < |vals| ==>
      (r[i] != Missing <==> keys[i].Some? && |Grouped(keys, vals, keys[i].value)| > 0)
    ensures forall i :: 0 <= i < |vals| && r[i] != Missing ==>
      r[i] == Num(Stats.Median(Grouped(keys, vals, keys[i].value)).value)
    ensures forall i, j :: 0 <= i < |vals| && 0 <= j < |vals| && keys[i].Some? && keys[j] == keys[i] ==> r[j] == r[i]
  {
    seq(|vals|, i requires 0 <= i < |vals| =>
      if keys[i].None? then Missing else AsCell(Stats.Median(Grouped(keys, vals, keys[i].value))))
  }

  /**
   * groupby(keys)[vals].transform(lambda x: x.fillna(x.median())): a keyed row keeps
   * its value, or takes its group's median when it has none; unkeyed rows give NaN.
   */
  function GroupFill<K(==)>(keys: seq<Option<K>>, vals: seq<Value>): (r: seq<Value>)
    requires |keys| == |vals|
    ensures |r| == |vals|
    ensures forall i :: 0 <= i < |vals| && keys[i].None? ==> r[i] == Missing
    ensures forall i :: 0 <= i < |vals| && keys[i].Some? && vals[i] != Missing ==> r[i] == vals[i]
    ensures forall i :: 0 <= i < |vals| && keys[i].Some? && vals[i] == Missing ==>
      && (r[i] != Missing <==> |Grouped(keys, vals, keys[i].value)| > 0)
      && (r[i] != Missing ==> r[i] == Num(Stats.Median(Grouped(keys, vals, keys[i].value)).value))
  {
    seq(|vals|, i requires 0 <= i < |vals| =>
      if keys[i].None? then Missing
      else if vals[i] != Missing then vals[i]
      else AsCell(Stats.Median(Grouped(keys, vals, keys[i].value))))
  }

  /** The median of a row's group, as a cell, lies in [lo, hi] when the column's numbers do. */
  lemma GroupMedianWithin<K>(keys: seq<Option<K>>, vals: seq<Value>, lo: real, hi: real, i: nat)
    requires |keys| == |vals| && Within(vals, lo, hi) && i < |vals| && keys[i].Some?
    ensures Within([AsCell(Stats.Median(Grouped(keys, vals, keys[i].value)))], lo, hi)
  {
    var g := Grouped(keys, vals, keys[i].value);
    if |g| > 0 {
      forall t | 0 <= t < |g| ensures lo <= g[t] <= hi {
        var k :| 0 <= k < |vals| && keys[k] == Some(keys[i].value) && vals[k] == Num(g[t]);
      }
      Stats.MedianWithin(g, lo, hi);
    }
  }

  /** A group median of numbers in [lo, hi] is in [lo, hi], so merging it keeps the bound. */
  lemma GroupMediansWithin<K>(keys: seq<Option<K>>, vals: seq<Value>, lo: real, hi: real)
    requires |keys| == |vals| && Within(vals, lo, hi)
    ensures Within(GroupMedians(keys, vals), lo, hi)
  {
    var m := GroupMedians(keys, vals);
    forall i | 0 <= i < |vals| && m[i].Num? ensures lo <= m[i].x <= hi {
      GroupMedianWithin(keys, vals, lo, hi, i);
      assert [m[i]][0] == m[i];
    }
  }

  /** Filling each group's gaps with its median keeps the bound too. */
  lemma GroupFillWithin<K>(keys: seq<Option<K>>, vals: seq<Value>, lo: real, hi: real)
    requires |keys| == |vals| && Within(vals, lo, hi)
    ensures Within(GroupFill(keys, vals), lo, hi)
  {
    var f := GroupFill(keys, vals);
    forall i | 0 <= i < |vals| && f[i].Num? ensures lo <= f[i].x <= hi {
      if vals[i] == Missing {
        GroupMedianWithin(keys, vals, lo, hi, i);
        assert [f[i]][0] == f[i];
      }
    }
  }

  /** Equal-width binning of whole numbers: the least integer not below y. */
  function Ceiling(y: real): (c: int)
    ensures y <= c as real < y + 1.0
  {
    -((-y).Floor)
  }

  lemma MulStrictMonotone(a: real, b: real, w: real)
    requires a < b && w > 0.0
    ensures a * w < b * w
  {
  }

  lemma MulMonotone(a: real, b: real, w: real)
    requires a <= b && w > 0.0
    ensures a * w <= b * w
  {
  }

  lemma MulCancel(a: real, b: real, w: real)
    requires a * w < b * w && w > 0.0
    ensures a < b
  {
  }

  lemma OrderOfMultiples(i: int, j: int, d: real, id: real, jd: real)
    requires d > 0.0 && id == i as real * d && jd == j as real * d && id < jd
    ensures i < j
  {
    if j <= i {
      MulMonotone(j as real, i as real, d);
    }
  }

  /** Multiplying out a bound on a quotient by a positive divisor. */
  lemma QuotientBounds(n: real, d: real, lo: real, hi: real)
    requires d > 0.0 && lo < n / d <= hi
    ensures lo * d < n <= hi * d
  {
    var q := n / d;
    assert q * d == n;
    MulStrictMonotone(lo, q, d);
    MulMonotone(q, hi, d);
  }

  /** The ceiling of N / D brackets N between consecutive multiples of D. */
  lemma CeilingBrackets(n: real, d: real)
    requires d > 0.0
    ensures (Ceiling(n / d) - 1) as real * d < n <= Ceiling(n / d) as real * d
  {
    var c := Ceiling(n / d);
    assert (c - 1) as real == c as real - 1.0;
    QuotientBounds(n, d, (c - 1) as real, c as real);
  }

  /** For 0 < n <= bins * d, the ceiling of n / d is a bin number 1 .. bins bracketing n. */
  lemma BinBounds(n: real, d: real, bins: nat)
    requires d > 0.0 && 0.0 < n && n <= bins as real * d
    ensures 1 <= Ceiling(n / d) <= bins
    ensures (Ceiling(n / d) - 1) as real * d < n <= Ceiling(n / d) as real * d
  {
    var c := Ceiling(n / d);
    CeilingBrackets(n, d);
    var top, below := c as real * d, (c - 1) as real * d;
    assert 0.0 * d < top;
    MulCancel(0.0, c as real, d);
    assert below < bins as real * d;
    MulCancel((c - 1) as real, bins as real, d);
  }

  /**
   * pd.cut(x, bins, labels=False) for a column whose numbers span [lo, hi]: the bins
   * are `bins` equal intervals of [lo, hi], closed on the right, the first one also
   * holding lo itself; when every number is the same (lo == hi) pandas widens the
   * range symmetrically and the value falls in the middle bin.  Bin b holds the x
   * with lo + b * (hi - lo) / bins < x <= lo + (b + 1) * (hi - lo) / bins, stated
   * below multiplied out.
   */
  function CutBin(x: real, lo: real, hi: real, bins: nat): (b: nat)
    requires bins > 0 && lo <= x <= hi
    ensures b < bins
    ensures lo == hi ==> b == (bins - 1) / 2
    ensures lo < hi && x == lo ==> b == 0
    ensures lo < hi && lo < x ==>
      && b as real * (hi - lo) < (x - lo) * bins as real
      && (x - lo) * bins as real <= (b + 1) as real * (hi - lo)
  {
    if lo == hi then (bins - 1) / 2
    else if x == lo then 0
    else
      var n, d := (x - lo) * bins as real, hi - lo;
      MulStrictMonotone(0.0, x - lo, bins as real);
      MulMonotone(x - lo, d, bins as real);
      assert n <= bins as real * d;
      BinBounds(n, d, bins);
      var b := Ceiling(n / d) - 1;
      assert (b + 1) as real == Ceiling(n / d) as real;
      b
  }

  /** Bins keep the order of the values they bin. */
  lemma CutBinMonotone(x: real, x': real, lo: real, hi: real, bins: nat)
    requires bins > 0 && lo <= x <= x' <= hi
    ensures CutBin(x, lo, hi, bins) <= CutBin(x', lo, hi, bins)
  {
    var b, b' := CutBin(x, lo, hi, bins), CutBin(x', lo, hi, bins);
    if lo < hi && lo < x {
      var d := hi - lo;
      var n, n' := (x - lo) * bins as real, (x' - lo) * bins as real;
      var lower, upper := b as real * d, (b' + 1) as real * d;
      assert lower < n;
      assert n' <= upper;
      MulMonotone(x - lo, x' - lo, bins as real);
      OrderOfMultiples(b, b' + 1, d, lower, upper);
    }
  }

  /**
   * pd.cut on a column: a bin for every number, none for NaN.  pandas refuses a
   * bin count below 1, a text cell and an empty column.  A column with cells but
   * no number has all its edges NaN: two equal edges (one bin) pass the check
   * that edges are unique and every cell gets no bin; more edges fail it.
   */
  function Cut(col: seq<Value>, bins: nat): (r: Option<seq<Option<nat>>>)
    ensures r.Some? <==> bins > 0 && Numeric(col) && |col| > 0 && (|Present(col)| > 0 || bins == 1)
    ensures r.Some? ==> |r.value| == |col|
    ensures r.Some? ==> forall i :: 0 <= i < |col| ==> (r.value[i].Some? <==> col[i].Num?)
    ensures r.Some? ==> forall i :: 0 <= i < |col| ==> r.value[i].Some? ==>
      r.value[i].value == CutBin(col[i].x, Stats.Least(Present(col)), Stats.Greatest(Present(col)), bins)
  {
    var p := Present(col);
    if bins == 0 || !Numeric(col) || |col| == 0 then None
    else if |p| == 0 then
      if bins == 1 then Some(seq(|col|, _ => None)) else None
    else
      var lo, hi := Stats.Least(p), Stats.Greatest(p);
      Some(seq(|col|, i requires 0 <= i < |col| =>
        if col[i].Num? then Some(CutBin(col[i].x, lo, hi, bins)) else None))
  }

  /** The (gender, glucose bin) group key of each row; none when either part is NaN. */
  function BinKeys(genders: seq<Value>, glucoseBins: seq<Option<nat>>): (k: seq<Option<(Value, nat)>>)
    requires |genders| == |glucoseBins|
    ensures |k| == |genders|
    ensures forall i :: 0 <= i < |k| ==> (k[i].Some? <==> genders[i] != Missing && glucoseBins[i].Some?)
    ensures forall i :: 0 <= i < |k| && k[i].Some? ==> k[i].value == (genders[i], glucoseBins[i].value)
  {
    seq(|genders|, i requires 0 <= i < |genders| =>
      if genders[i] != Missing && glucoseBins[i].Some? then Some((genders[i], glucoseBins[i].value)) else None)
  }

  /** The gender group key of each row; none for a NaN gender. */
  function GenderKeys(genders: seq<Value>): (k: seq<Option<Value>>)
    ensures |k| == |genders|
    ensures forall i :: 0 <= i < |k| ==> k[i] == (if genders[i] != Missing then Some(genders[i]) else None)
  {
    seq(|genders|, i requires 0 <= i < |genders| => if genders[i] != Missing then Some(genders[i]) else None)
  }

  /** FillNa of numeric columns is numeric, and keeps a common bound. */
  lemma FillNaWithin(a: seq<Value>, other: seq<Value>, lo: real, hi: real)
    requires |a| == |other| && Numeric(a) && Numeric(other)
    ensures Numeric(FillNa(a, other))
    ensures Within(a, lo, hi) && Within(other, lo, hi) ==> Within(FillNa(a, other), lo, hi)
  {
  }

  /** Series.fillna(v) for a single value v. */
  function FillWith(col: seq<Value>, v: Value): (r: seq<Value>)
    ensures |r| == |col|
  {
    FillNa(col, seq(|col|, _ => v))
  }

  /** Stage three: when a gap remains, every gap gets the median of the whole column. */
  function FillRemaining(col: seq<Value>): (r: seq<Value>)
    ensures |r| == |col|
    ensures forall i :: 0 <= i < |col| && col[i] != Missing ==> r[i] == col[i]
    ensures forall i :: 0 <= i < |col| && col[i] == Missing ==> r[i] == AsCell(Stats.Median(Present(col)))
  {
    if exists i | 0 <= i < |col| :: col[i] == Missing
    then FillWith(col, AsCell(Stats.Median(Present(col))))
    else col
  }

  /** The two group stages keep a numeric column numeric and within [lo, hi]. */
  lemma GroupStagesWithin<K, L>(bmi: seq<Value>, binKeys: seq<Option<K>>, genderKeys: seq<Option<L>>, lo: real, hi: real)
    requires |binKeys| == |bmi| && |genderKeys| == |bmi|
    requires Numeric(bmi) && Within(bmi, lo, hi)
    ensures
      var one := FillNa(bmi, GroupMedians(binKeys, bmi));
      var two := FillNa(one, GroupFill(genderKeys, one));
      Numeric(two) && Within(two, lo, hi)
  {
    var medians := GroupMedians(binKeys, bmi);
    GroupMediansWithin(binKeys, bmi, lo, hi);
    assert Numeric(medians);
    FillNaWithin(bmi, medians, lo, hi);
    var one := FillNa(bmi, medians);
    var fill := GroupFill(genderKeys, one);
    GroupFillWithin(genderKeys, one, lo, hi);
    assert Numeric(fill);
    FillNaWithin(one, fill, lo, hi);
  }

  /** Filling with a number in [lo, hi] leaves a numeric column without gaps and within [lo, hi]. */
  lemma FillWithWithin(col: seq<Value>, v: Value, lo: real, hi: real)
    requires Numeric(col) && Within(col, lo, hi) && v.Num? && lo <= v.x <= hi
    ensures forall i :: 0 <= i < |col| ==> FillWith(col, v)[i].Num?
    ensures Within(FillWith(col, v), lo, hi)
  {
  }

  /** The median of a numeric column within [lo, hi] that holds a number is a number in [lo, hi]. */
  lemma ColumnMedianWithin(col: seq<Value>, k: nat, lo: real, hi: real)
    requires Within(col, lo, hi) && k < |col| && col[k].Num?
    ensures AsCell(Stats.Median(Present(col))).Num?
    ensures lo <= AsCell(Stats.Median(Present(col))).x <= hi
  {
    var p := Present(col);
    assert col[k].x in p;
    forall t | 0 <= t < |p| ensures lo <= p[t] <= hi {
      var i :| 0 <= i < |col| && col[i] == Num(p[t]);
    }
    Stats.MedianWithin(p, lo, hi);
  }

  /** On a numeric column holding a number, stage three leaves no gap and keeps [lo, hi]. */
  lemma FillRemainingWithin(col: seq<Value>, k: nat, lo: real, hi: real)
    requires Numeric(col) && Within(col, lo, hi) && k < |col| && col[k].Num?
    ensures forall i :: 0 <= i < |col| ==> FillRemaining(col)[i].Num?
    ensures Within(FillRemaining(col), lo, hi)
  {
    if exists i | 0 <= i < |col| :: col[i] == Missing {
      ColumnMedianWithin(col, k, lo, hi);
      FillWithWithin(col, AsCell(Stats.Median(Present(col))), lo, hi);
    }
  }

  /**
   * The three stages fill every gap when the column holds at least one BMI, and
   * never with a value outside the range of the BMIs present.
   */
  lemma FilledWithin<K, L>(bmi: seq<Value>, binKeys: seq<Option<K>>, genderKeys: seq<Option<L>>)
    requires |binKeys| == |bmi| && |genderKeys| == |bmi|
    requires Numeric(bmi) && |Present(bmi)| > 0
    ensures
      var lo, hi := Stats.Least(Present(bmi)), Stats.Greatest(Present(bmi));
      var one := FillNa(bmi, GroupMedians(binKeys, bmi));
      var out := FillRemaining(FillNa(one, GroupFill(genderKeys, one)));
      forall i :: 0 <= i < |out| ==> out[i].Num? && lo <= out[i].x <= hi
  {
    var lo, hi := Stats.Least(Present(bmi)), Stats.Greatest(Present(bmi));
    PresentWithin(bmi);
    GroupStagesWithin(bmi, binKeys, genderKeys, lo, hi);
    var one := FillNa(bmi, GroupMedians(binKeys, bmi));
    var two := FillNa(one, GroupFill(genderKeys, one));
    var k :| 0 <= k < |bmi| && bmi[k] == Num(Present(bmi)[0]);
    assert two[k] == bmi[k];
    FillRemainingWithin(two, k, lo, hi);
  }

  /** The column a frame has under a name. */
  function Named(df: Frame, name: string): (col: seq<Value>)
    requires WellFormed(df) && name in df.columns
    ensures |col| == |df.rows|
  {
    Column(df.rows, IndexOf(df.columns, name).value)
  }

  /** The name of the merged median column. */
  const MedianColumn: string := "Median_BMI"

  /**
   * The frame has the three columns, a numeric BMI column, and a bin count and
   * glucose column pd.cut accepts; and no column of its own is named like the
   * merged median column (the merge would suffix both, and the lookup of that
   * name would raise KeyError).
   */
  predicate Fillable(df: Frame, glucoseCol: string, bmiCol: string, genderCol: string, bins: nat)
    requires WellFormed(df)
  {
    && bins > 0
    && glucoseCol in df.columns && bmiCol in df.columns && genderCol in df.columns
    && MedianColumn !in df.columns
    && Cut(Named(df, glucoseCol), bins).Some?
    && Numeric(Named(df, bmiCol))
  }

  /** The BMI column after the first stage: gaps filled with the (gender, glucose bin) medians. */
  ghost function StageOne(df: Frame, glucoseCol: string, bmiCol: string, genderCol: string, bins: nat): (s: seq<Value>)
    requires WellFormed(df) && Fillable(df, glucoseCol, bmiCol, genderCol, bins)
    ensures |s| == |df.rows|
  {
    var bmi := Named(df, bmiCol);
    var glucoseBins := Cut(Named(df, glucoseCol), bins).value;
    var keys := BinKeys(Named(df, genderCol), glucoseBins);
    FillNa(bmi, GroupMedians(keys, bmi))
  }

  /** The BMI column after the second stage: remaining gaps filled with the gender medians. */
  ghost function StageTwo(df: Frame, glucoseCol: string, bmiCol: string, genderCol: string, bins: nat): (s: seq<Value>)
    requires WellFormed(df) && Fillable(df, glucoseCol, bmiCol, genderCol, bins)
    ensures |s| == |df.rows|
  {
    var one := StageOne(df, glucoseCol, bmiCol, genderCol, bins);
    FillNa(one, GroupFill(GenderKeys(Named(df, genderCol)), one))
  }

  /** The BMI column fill_missing_bmi returns: stage three applied after the first two. */
  ghost function FilledBmi(df: Frame, glucoseCol: string, bmiCol: string, genderCol: string, bins: nat): (s: seq<Value>)
    requires WellFormed(df) && Fillable(df, glucoseCol, bmiCol, genderCol, bins)
    ensures |s| == |df.rows|
  {
    FillRemaining(StageTwo(df, glucoseCol, bmiCol, genderCol, bins))
  }

  /** The stages, spelled out on the three columns of a frame that has them. */
  lemma FilledBmiSteps(df: Frame, glucoseCol: string, bmiCol: string, genderCol: string, bins: nat)
    requires WellFormed(df)
    requires glucoseCol in df.columns && bmiCol in df.columns && genderCol in df.columns
    ensures
      var glucose := Named(df, glucoseCol);
      var bmi := Named(df, bmiCol);
      var genders := Named(df, genderCol);
      && (Fillable(df, glucoseCol, bmiCol, genderCol, bins) <==>
            Cut(glucose, bins).Some? && Numeric(bmi) && MedianColumn !in df.columns)
      && (Fillable(df, glucoseCol, bmiCol, genderCol, bins) ==>
            var one := FillNa(bmi, GroupMedians(BinKeys(genders, Cut(glucose, bins).value), bmi));
            FilledBmi(df, glucoseCol, bmiCol, genderCol, bins)
              == FillRemaining(FillNa(one, GroupFill(GenderKeys(genders), one))))
  {
  }

  /** The stages fill only gaps: a BMI present in the frame is the one returned. */
  lemma FilledBmiKeeps(df: Frame, glucoseCol: string, bmiCol: string, genderCol: string, bins: nat, i: nat)
    requires WellFormed(df) && Fillable(df, glucoseCol, bmiCol, genderCol, bins)
    requires i < |df.rows|
    ensures
      var bmi := Named(df, bmiCol);
      bmi[i] != Missing ==> FilledBmi(df, glucoseCol, bmiCol, genderCol, bins)[i] == bmi[i]
  {
  }

  /** Stage three keeps what the group stages filled and gives each remaining gap the overall median. */
  lemma FilledBmiLastStage(df: Frame, glucoseCol: string, bmiCol: string, genderCol: string, bins: nat, i: nat)
    requires WellFormed(df) && Fillable(df, glucoseCol, bmiCol, genderCol, bins)
    requires i < |df.rows|
    ensures
      var two := StageTwo(df, glucoseCol, bmiCol, genderCol, bins);
      var out := FilledBmi(df, glucoseCol, bmiCol, genderCol, bins);
      && (two[i] != Missing ==> out[i] == two[i])
      && (two[i] == Missing ==> out[i] == AsCell(Stats.Median(Present(two))))
  {
  }

  /**
   * Where the stages take a missing BMI's value from, in order of precedence: the
   * median of its first-stage group when that group holds a BMI; otherwise the
   * median of its second-stage group after the first stage, when that holds one;
   * otherwise the median of the whole column after the second stage.
   */
  lemma StagesPrecedence<K, L>(bmi: seq<Value>, binKeys: seq<Option<K>>, genderKeys: seq<Option<L>>, i: nat)
    requires |binKeys| == |bmi| && |genderKeys| == |bmi| && i < |bmi| && bmi[i] == Missing
    ensures
      var one := FillNa(bmi, GroupMedians(binKeys, bmi));
      var two := FillNa(one, GroupFill(genderKeys, one));
      var out := FillRemaining(two);
      var binGroup := if binKeys[i].Some? then Grouped(binKeys, bmi, binKeys[i].value) else [];
      var genderGroup := if genderKeys[i].Some? then Grouped(genderKeys, one, genderKeys[i].value) else [];
      && (|binGroup| > 0 ==> out[i] == Num(Stats.Median(binGroup).value))
      && (|binGroup| == 0 && |genderGroup| > 0 ==> out[i] == Num(Stats.Median(genderGroup).value))
      && (|binGroup| == 0 && |genderGroup| == 0 ==> out[i] == AsCell(Stats.Median(Present(two))))
  {
    var one := FillNa(bmi, GroupMedians(binKeys, bmi));
    var two := FillNa(one, GroupFill(genderKeys, one));
    assert one[i] == GroupMedians(binKeys, bmi)[i];
    if one[i] == Missing {
      assert two[i] == GroupFill(genderKeys, one)[i];
    }
  }

  /**
   * fill_missing_bmi's precedence on a frame: a missing BMI gets the median of its
   * (gender, glucose bin) group when that group holds a BMI; otherwise the median of
   * its gender's BMIs after the first stage, when there are any; otherwise the
   * median of the whole column after the second stage.
   */
  lemma FilledBmiPrecedence(df: Frame, glucoseCol: string, bmiCol: string, genderCol: string, bins: nat, i: nat)
    requires WellFormed(df) && Fillable(df, glucoseCol, bmiCol, genderCol, bins)
    requires i < |df.rows| && Named(df, bmiCol)[i] == Missing
    ensures
      var bmi, genders := Named(df, bmiCol), Named(df, genderCol);
      var binKeys := BinKeys(genders, Cut(Named(df, glucoseCol), bins).value);
      var one := StageOne(df, glucoseCol, bmiCol, genderCol, bins);
      var out := FilledBmi(df, glucoseCol, bmiCol, genderCol, bins);
      var binGroup := if binKeys[i].Some? then Grouped(binKeys, bmi, binKeys[i].value) else [];
      var genderGroup := if genders[i] != Missing then Grouped(GenderKeys(genders), one, genders[i]) else [];
      && (|binGroup| > 0 ==> out[i] == Num(Stats.Median(binGroup).value))
      && (|binGroup| == 0 && |genderGroup| > 0 ==> out[i] == Num(Stats.Median(genderGroup).value))
      && (|binGroup| == 0 && |genderGroup| == 0 ==>
            out[i] == AsCell(Stats.Median(Present(StageTwo(df, glucoseCol, bmiCol, genderCol, bins)))))
  {
    var bmi, genders := Named(df, bmiCol), Named(df, genderCol);
    var binKeys := BinKeys(genders, Cut(Named(df, glucoseCol), bins).value);
    StagesPrecedence(bmi, binKeys, GenderKeys(genders), i);
  }

  /**
   * When the column holds a BMI, fill_missing_bmi leaves no gap, and every BMI it
   * returns lies within the range of those present before.
   */
  lemma FilledBmiWithin(df: Frame, glucoseCol: string, bmiCol: string, genderCol: string, bins: nat)
    requires WellFormed(df) && Fillable(df, glucoseCol, bmiCol, genderCol, bins)
    ensures
      var p := Present(Named(df, bmiCol));
      var out := FilledBmi(df, glucoseCol, bmiCol, genderCol, bins);
      |p| > 0 ==> forall i :: 0 <= i < |out| ==> out[i].Num? && Stats.Least(p) <= out[i].x <= Stats.Greatest(p)
  {
    var bmi := Named(df, bmiCol);
    var glucose := Named(df, glucoseCol);
    var genders := Named(df, genderCol);
    FilledBmiSteps(df, glucoseCol, bmiCol, genderCol, bins);
    if |Present(bmi)| > 0 {
      FilledWithin(bmi, BinKeys(genders, Cut(glucose, bins).value), GenderKeys(genders));
    }
  }

  /** The frame with column j replaced by `col`. */
  function ReplaceColumn(df: Frame, j: nat, col: seq<Value>): (r: Frame)
    requires WellFormed(df) && j < |df.columns| && |col| == |df.rows|
    ensures WellFormed(r) && r.columns == df.columns && r.index == df.index
    ensures Column(r.rows, j) == col
    ensures forall i, k :: 0 <= i < |df.rows| && 0 <= k < |df.columns| && k != j ==>
      r.rows[i][k] == df.rows[i][k]
  {
    df.(rows := seq(|df.rows|, i requires 0 <= i < |df.rows| => df.rows[i][j := col[i]]))
  }

  /**
   * fill_missing_bmi: on a copy, fills each NaN BMI with the median BMI of its
   * (gender, glucose bin) group, then of its gender, then of the whole column.  The
   * merge leaves the rows in order and renumbers them 0..n-1; the temporary bin and
   * median columns are dropped again, so here they are local sequences.
   */
  method FillMissingBmi(df: Frame, glucoseCol: string := "avg_glucose_level", bmiCol: string := "bmi",
                        genderCol: string := "gender", bins: nat := 4)
    returns (r: Option<Frame>)
    requires WellFormed(df)
    ensures r.Some? <==> Fillable(df, glucoseCol, bmiCol, genderCol, bins)
    ensures r.Some? ==>
      && WellFormed(r.value)
      && r.value.columns == df.columns && r.value.index == Range(|df.rows|)
      && |r.value.rows| == |df.rows|
    ensures r.Some? ==>
      var jb := IndexOf(df.columns, bmiCol).value;
      && Column(r.value.rows, jb) == FilledBmi(df, glucoseCol, bmiCol, genderCol, bins)
      && forall i, j :: 0 <= i < |df.rows| && 0 <= j < |df.columns| && j != jb ==>
           r.value.rows[i][j] == df.rows[i][j]
  {
    // a missing column raises KeyError, a bin count below 1 or a glucose column pd.cut
    // refuses raises in pd.cut, an own Median_BMI column makes df['Median_BMI'] raise
    // KeyError after the merge, and a text BMI raises in median; all of these happen
    // before the copy is returned
    if !Fillable(df, glucoseCol, bmiCol, genderCol, bins) {
      return None;
    }
    FilledBmiSteps(df, glucoseCol, bmiCol, genderCol, bins);
    var jb := IndexOf(df.columns, bmiCol).value;
    var bmi := Column(df.rows, jb);
    var glucoseBins := Cut(Column(df.rows, IndexOf(df.columns, glucoseCol).value), bins).value;
    var genders := Column(df.rows, IndexOf(df.columns, genderCol).value);
    // stage 1: the (gender, bin) medians, merged onto the rows
    var medianBmi := GroupMedians(BinKeys(genders, glucoseBins), bmi);
    var filled := FillNa(bmi, medianBmi);
    // stage 2: the gender medians
    var perGender := GroupFill(GenderKeys(genders), filled);
    filled := FillNa(filled, perGender);
    ghost var two := filled;
    // stage 3: the overall median, only when gaps remain
    if exists i | 0 <= i < |filled| :: filled[i] == Missing {
      filled := FillWith(filled, AsCell(Stats.Median(Present(filled))));
    }
    assert filled == FilledBmi(df, glucoseCol, bmiCol, genderCol, bins) by {
      assert filled == FillRemaining(two);
    }
    var merged := ReplaceColumn(df, jb, filled);
    r := Some(merged.(index := Range(|df.rows|)));
  }
}
