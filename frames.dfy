/**
 * Tables as the pipeline sees them: column labels, row labels (the index) and
 * rows of cells, plus the index-sequence vocabulary (samples, permutations)
 * used to model pandas' random draws.
 */
module Frames {
  import opened Wrappers

  /** One cell: a number, a piece of text, or a missing value (NaN). */
  datatype Value = Num(x: real) | Text(s: string) | Missing

  type Row = seq<Value>

  /** A DataFrame: column labels, index labels and the rows. */
  datatype Frame = Frame(columns: seq<string>, index: seq<int>, rows: seq<Row>)

  predicate Distinct<T(==)>(s: seq<T>)
  {
    forall i, j :: 0 <= i < j < |s| ==> s[i] != s[j]
  }

  /** The keys of a list of (key, value) entries, in order: a dictionary's keys in insertion order. */
  function Keys<T>(entries: seq<(string, T)>): (r: seq<string>)
    ensures |r| == |entries| && forall i :: 0 <= i < |entries| ==> r[i] == entries[i].0
  {
    seq(|entries|, i requires 0 <= i < |entries| => entries[i].0)
  }

  /** No later entry has the key of entry i. */
  predicate LastOfKey<T>(entries: seq<(string, T)>, i: nat)
    requires i < |entries|
  {
    forall j :: i < j < |entries| ==> entries[j].0 != entries[i].0
  }

  /** An entry before the last that is the last of its key is so without the last entry. */
  lemma LastOfKeyInPrefix<T>(entries: seq<(string, T)>, i: nat)
    requires i < |entries| - 1 && LastOfKey(entries, i)
    ensures entries[..|entries| - 1][i] == entries[i] && LastOfKey(entries[..|entries| - 1], i)
  {
  }

  /** Column labels are unique, and every row has one cell per column and one index label. */
  predicate WellFormed(f: Frame)
  {
    && Distinct(f.columns)
    && |f.index| == |f.rows|
    && forall i :: 0 <= i < |f.rows| ==> |f.rows[i]| == |f.columns|
  }

  /** Position of the first occurrence of x in s. */
  function IndexOf<T(==)>(s: seq<T>, x: T): (r: Option<nat>)
    ensures r.None? <==> x !in s
    ensures r.Some? ==> r.value < |s| && s[r.value] == x && x !in s[..r.value]
  {
    if |s| == 0 then None
    else if s[0] == x then Some(0)
    else match IndexOf(s[1..], x)
      case None => None
      case Some(k) =>
        assert s[..k + 1] == [s[0]] + s[1..][..k];
        Some(k + 1)
  }

  /** The first occurrence is the only one when the labels are distinct. */
  lemma IndexOfDistinct<T>(s: seq<T>, j: nat)
    requires Distinct(s) && j < |s|
    ensures IndexOf(s, s[j]) == Some(j)
  {
  }

  /** The column of cells at position j. */
  function Column(rows: seq<Row>, j: nat): (c: seq<Value>)
    requires forall i :: 0 <= i < |rows| ==> j < |rows[i]|
    ensures |c| == |rows|
  {
    seq(|rows|, i requires 0 <= i < |rows| => rows[i][j])
  }

  /** The row labels 0, 1, ..., n-1 (what reset_index produces). */
  function Range(n: nat): (r: seq<int>)
    ensures |r| == n && forall i :: 0 <= i < n ==> r[i] == i
  {
    seq(n, i => i)
  }

  /** Each of 0..n-1 occurs exactly once in Range(n). */
  lemma {:induction false} RangeOccursOnce(n: nat, k: int)
    ensures multiset(Range(n))[k] == if 0 <= k < n then 1 else 0
  {
    if n > 0 {
      assert Range(n) == Range(n - 1) + [n - 1];
      RangeOccursOnce(n - 1, k);
    }
  }

  predicate InBounds(p: seq<nat>, n: nat)
  {
    forall i :: 0 <= i < |p| ==> p[i] < n
  }

  /** p lists every position 0..n-1 exactly once. */
  predicate IsPermutation(p: seq<nat>, n: nat)
  {
    |p| == n && multiset(p) == multiset(Range(n))
  }

  /** p picks k distinct positions out of n (a draw without replacement). */
  predicate IsSample(p: seq<nat>, n: nat, k: nat)
  {
    |p| == k && InBounds(p, n) && Distinct(p)
  }

  lemma PermutationInBounds(p: seq<nat>, n: nat)
    requires IsPermutation(p, n)
    ensures InBounds(p, n)
  {
    forall i | 0 <= i < |p| ensures p[i] < n {
      assert p[i] in multiset(p);
      RangeOccursOnce(n, p[i]);
    }
  }

  /** Every position occurs in exactly one of the two pieces of a permutation cut at k. */
  lemma PermutationCut(p: seq<nat>, n: nat, k: nat, r: nat)
    requires IsPermutation(p, n) && k <= n && r < n
    ensures (r in p[..k]) != (r in p[k..])
  {
    assert p == p[..k] + p[k..];
    assert multiset(p)[r] == multiset(p[..k])[r] + multiset(p[k..])[r];
    RangeOccursOnce(n, r);
  }

  /** The rows of s taken at the positions p, in the order of p. */
  function Permute<T>(s: seq<T>, p: seq<nat>): (r: seq<T>)
    requires InBounds(p, |s|)
    ensures |r| == |p| && forall i :: 0 <= i < |p| ==> r[i] == s[p[i]]
  {
    seq(|p|, i requires 0 <= i < |p| => s[p[i]])
  }

  lemma PermuteConcat<T>(s: seq<T>, p: seq<nat>, q: seq<nat>)
    requires InBounds(p, |s|) && InBounds(q, |s|)
    ensures InBounds(p + q, |s|)
    ensures Permute(s, p + q) == Permute(s, p) + Permute(s, q)
  {
  }

  /** Cutting one position out of a pick removes exactly one element from the rows picked. */
  lemma PermuteSplitAt<T>(s: seq<T>, q: seq<nat>, k: nat)
    requires InBounds(q, |s|) && k < |q|
    ensures InBounds(q[..k] + q[k + 1..], |s|)
    ensures multiset(Permute(s, q)) == multiset(Permute(s, q[..k] + q[k + 1..])) + multiset{s[q[k]]}
  {
    var q1, q2 := q[..k], q[k + 1..];
    assert q == q1 + [q[k]] + q2;
    PermuteConcat(s, q1, [q[k]]);
    PermuteConcat(s, q1 + [q[k]], q2);
    PermuteConcat(s, q1, q2);
  }

  /** Picking positions depends, up to order, only on the multiset of positions picked. */
  lemma {:induction false} PermuteRespectsMultiset<T>(s: seq<T>, p: seq<nat>, q: seq<nat>)
    requires InBounds(p, |s|) && InBounds(q, |s|)
    requires multiset(p) == multiset(q)
    ensures multiset(Permute(s, p)) == multiset(Permute(s, q))
    decreases |p|
  {
    if |p| == 0 {
      assert |q| == |multiset(q)| == 0;
    } else {
      var a := p[0];
      assert a in multiset(q);
      var k :| 0 <= k < |q| && q[k] == a;
      var rest := q[..k] + q[k + 1..];
      assert q == q[..k] + [a] + q[k + 1..];
      assert multiset(q) == multiset(rest) + multiset{a};
      assert p == [a] + p[1..];
      assert multiset(p) == multiset(p[1..]) + multiset{a};
      forall x ensures multiset(p[1..])[x] == multiset(rest)[x] {
        assert multiset(p)[x] == multiset(q)[x];
      }
      assert multiset(p[1..]) == multiset(rest);
      PermuteSplitAt(s, q, k);
      PermuteSplitAt(s, p, 0);
      assert p[..0] + p[1..] == p[1..];
      PermuteRespectsMultiset(s, p[1..], rest);
    }
  }

  /** Rearranging by a permutation keeps the same elements with the same multiplicities. */
  lemma PermuteMultiset<T>(s: seq<T>, p: seq<nat>)
    requires IsPermutation(p, |s|)
    ensures InBounds(p, |s|)
    ensures multiset(Permute(s, p)) == multiset(s)
  {
    PermutationInBounds(p, |s|);
    PermuteRespectsMultiset(s, p, Range(|s|));
    assert Permute(s, Range(|s|)) == s;
  }

  /** A value equal to every element of s occurs |s| times in it. */
  lemma {:induction false} CountConstant<T>(s: seq<T>, x: T)
    requires forall i :: 0 <= i < |s| ==> s[i] == x
    ensures multiset(s)[x] == |s|
  {
    if |s| > 0 {
      assert s == s[..|s| - 1] + [s[|s| - 1]];
      CountConstant(s[..|s| - 1], x);
    }
  }

  /** A value different from every element of s does not occur in it. */
  lemma CountAbsent<T>(s: seq<T>, x: T)
    requires forall i :: 0 <= i < |s| ==> s[i] != x
    ensures multiset(s)[x] == 0
  {
    assert x !in s;
  }
}
