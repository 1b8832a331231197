/** Order statistics over exact reals: the median pandas computes for a column or a group. */
module Stats {
  import opened Wrappers

  predicate Sorted(s: seq<real>)
  {
    forall i, j :: 0 <= i < j < |s| ==> s[i] <= s[j]
  }

  function Insert(x: real, s: seq<real>): (r: seq<real>)
    requires Sorted(s)
    ensures Sorted(r) && multiset(r) == multiset(s) + multiset{x}
  {
    if |s| == 0 || x <= s[0] then [x] + s
    else
      var t := Insert(x, s[1..]);
      InsertBehind(x, s, t);
      [s[0]] + t
  }

  /** Putting the head of a sorted sequence before the rest with x inserted keeps it sorted. */
  lemma InsertBehind(x: real, s: seq<real>, t: seq<real>)
    requires Sorted(s) && |s| > 0 && s[0] < x
    requires Sorted(t) && multiset(t) == multiset(s[1..]) + multiset{x}
    ensures Sorted([s[0]] + t) && multiset([s[0]] + t) == multiset(s) + multiset{x}
  {
    assert s == [s[0]] + s[1..];
    forall k | 0 <= k < |t|
      ensures s[0] <= t[k]
    {
      assert t[k] in multiset(t);
      if t[k] != x {
        assert t[k] in s[1..];
      }
    }
  }

  /** The values in ascending order. */
  function Sort(s: seq<real>): (r: seq<real>)
    ensures Sorted(r) && multiset(r) == multiset(s)
  {
    if |s| == 0 then []
    else
      assert s == [s[0]] + s[1..];
      Insert(s[0], Sort(s[1..]))
  }

  /** The head of an ascending sequence is at most any of its values. */
  lemma HeadIsLeast(a: seq<real>, x: real)
    requires Sorted(a) && x in multiset(a)
    ensures |a| > 0 && a[0] <= x
  {
    var i :| 0 <= i < |a| && a[i] == x;
  }

  /** Dropping the head of an ascending sequence leaves an ascending sequence of the other values. */
  lemma Tail(a: seq<real>)
    requires Sorted(a) && |a| > 0
    ensures Sorted(a[1..]) && multiset(a[1..]) == multiset(a) - multiset{a[0]}
  {
    assert a == [a[0]] + a[1..];
  }

  /** Sequences with the same head and the same tail are equal. */
  lemma SameHeadSameTail(a: seq<real>, b: seq<real>)
    requires |a| > 0 && |b| > 0 && a[0] == b[0] && a[1..] == b[1..]
    ensures a == b
  {
    assert a == [a[0]] + a[1..] && b == [b[0]] + b[1..];
  }

  /** Two ascending arrangements of the same values are the same sequence. */
  lemma {:induction false} SortedUnique(a: seq<real>, b: seq<real>)
    requires Sorted(a) && Sorted(b) && multiset(a) == multiset(b)
    ensures a == b
  {
    if |a| == 0 {
      assert |multiset(b)| == 0;
    } else {
      assert |b| > 0 by {
        assert |multiset(b)| == |multiset(a)| == |a|;
      }
      assert a[0] in multiset(a);
      HeadIsLeast(b, a[0]);
      assert b[0] in multiset(b);
      HeadIsLeast(a, b[0]);
      var a', b' := a[1..], b[1..];
      Tail(a);
      Tail(b);
      SortedUnique(a', b');
      SameHeadSameTail(a, b);
    }
  }

  /** The middle of an ascending sequence: its middle value, or the mean of the two middle ones. */
  function Middle(r: seq<real>): Option<real>
  {
    if |r| == 0 then None
    else
      var h := |r| / 2;
      if |r| % 2 == 1 then Some(r[h]) else Some((r[h - 1] + r[h]) / 2.0)
  }

  /**
   * The median of the values: the middle one in ascending order, or the mean of
   * the two middle ones when their number is even; none when there are no values.
   * Whatever ascending arrangement of the values is taken, its middle is the median.
   */
  function Median(s: seq<real>): (m: Option<real>)
    ensures m.Some? <==> |s| > 0
    ensures forall r :: Sorted(r) && multiset(r) == multiset(s) ==> m == Middle(r)
  {
    var r := Sort(s);
    assert |r| == |multiset(r)| == |s|;
    assert forall r' :: Sorted(r') && multiset(r') == multiset(s) ==> r' == r by {
      forall r' | Sorted(r') && multiset(r') == multiset(s) ensures r' == r {
        SortedUnique(r', r);
      }
    }
    Middle(r)
  }

  /** The median depends on the values and their multiplicities, not on their order. */
  lemma MedianIgnoresOrder(s: seq<real>, t: seq<real>)
    requires multiset(s) == multiset(t)
    ensures Median(s) == Median(t)
  {
    var r := Sort(s);
    assert Median(s) == Middle(r);
  }

  /** The median lies between the smallest and the largest value. */
  lemma MedianBetween(s: seq<real>)
    requires |s| > 0
    ensures exists i :: 0 <= i < |s| && s[i] <= Median(s).value
    ensures exists j :: 0 <= j < |s| && Median(s).value <= s[j]
  {
    var r := Sort(s);
    assert |r| == |multiset(r)| == |s|;
    var m := Median(s).value;
    assert Median(s) == Middle(r);
    assert r[0] <= m <= r[|r| - 1] by {
      var h := |r| / 2;
      assert r[0] <= r[h] <= r[|r| - 1];
      if |r| % 2 == 0 {
        assert r[0] <= r[h - 1] <= r[|r| - 1];
      }
    }
    assert r[0] in multiset(s) && r[|r| - 1] in multiset(s) by {
      assert r[0] in multiset(r) && r[|r| - 1] in multiset(r);
    }
    var i :| 0 <= i < |s| && s[i] == r[0];
    var j :| 0 <= j < |s| && s[j] == r[|r| - 1];
  }

  /** So a median of values within [lo, hi] is within [lo, hi]. */
  lemma MedianWithin(s: seq<real>, lo: real, hi: real)
    requires |s| > 0
    requires forall i :: 0 <= i < |s| ==> lo <= s[i] <= hi
    ensures lo <= Median(s).value <= hi
  {
    MedianBetween(s);
  }

  /** The smallest value. */
  function Least(s: seq<real>): (m: real)
    requires |s| > 0
    ensures m in s && forall i :: 0 <= i < |s| ==> m <= s[i]
  {
    if |s| == 1 then s[0]
    else
      var m := Least(s[1..]);
      assert m in s;
      if s[0] <= m then s[0] else m
  }

  /** The largest value. */
  function Greatest(s: seq<real>): (m: real)
    requires |s| > 0
    ensures m in s && forall i :: 0 <= i < |s| ==> s[i] <= m
  {
    if |s| == 1 then s[0]
    else
      var m := Greatest(s[1..]);
      assert m in s;
      if m <= s[0] then s[0] else m
  }
}
