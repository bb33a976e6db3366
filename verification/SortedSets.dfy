/** Sets of line numbers with rank and select, as the bitmap library provides them. */
module SortedSets {
  import opened Bytes

  lemma {:induction false} LeastExists(s: set<nat>) returns (m: nat)
    requires s != {}
    ensures m in s && forall x :: x in s ==> m <= x
    decreases |s|
  {
    m :| m in s;
    var rest := s - {m};
    assert forall x :: x in s ==> x == m || x in rest;
    if rest != {} {
      var n := LeastExists(rest);
      m := if n < m then n else m;
    }
  }

  function Least(s: set<nat>): (m: nat)
    requires s != {}
    ensures m in s && forall x :: x in s ==> m <= x
  {
    assert exists m :: m in s && forall x :: x in s ==> m <= x by {
      var m := LeastExists(s);
    }
    var m :| m in s && forall x :: x in s ==> m <= x;
    m
  }

  function UpTo(s: set<nat>, x: nat): set<nat> {
    set k | k in s && k <= x
  }

  /** The number of elements up to `x`. */
  function Rank(s: set<nat>, x: nat): nat {
    |UpTo(s, x)|
  }

  /** The element with `i` elements below it. */
  function Select(s: set<nat>, i: nat): Option<nat>
    decreases i
  {
    if i >= |s| then None
    else if i == 0 then Some(Least(s))
    else Select(s - {Least(s)}, i - 1)
  }

  lemma SubsetSize(a: set<nat>, b: set<nat>)
    requires a <= b
    ensures |a| <= |b|
    ensures a != b ==> |a| < |b|
  {
    assert b == a + (b - a);
    assert a != b ==> b - a != {};
  }

  lemma RankBounds(s: set<nat>, x: nat)
    ensures Rank(s, x) <= |s|
    ensures x in s ==> Rank(s, x) >= 1
  {
    SubsetSize(UpTo(s, x), s);
    if x in s {
      assert x in UpTo(s, x);
    }
  }

  lemma RankGrows(s: set<nat>, x: nat, y: nat)
    requires x <= y
    ensures Rank(s, x) <= Rank(s, y)
    ensures x < y && y in s ==> Rank(s, x) < Rank(s, y)
  {
    SubsetSize(UpTo(s, x), UpTo(s, y));
    if x < y && y in s {
      assert y in UpTo(s, y) && y !in UpTo(s, x);
    }
  }

  lemma {:induction false} SelectIsRanked(s: set<nat>, i: nat)
    requires i < |s|
    ensures var v := Select(s, i); v.Some? && v.value in s && Rank(s, v.value) == i + 1
    decreases i
  {
    var m := Least(s);
    if i == 0 {
      assert UpTo(s, m) == {m};
    } else {
      var rest := s - {m};
      SelectIsRanked(rest, i - 1);
      var v := Select(rest, i - 1).value;
      assert UpTo(s, v) == {m} + UpTo(rest, v);
    }
  }

  /** Selecting the rank of an element gives the element back. */
  lemma SelectOfRank(s: set<nat>, x: nat)
    requires x in s
    ensures Rank(s, x) >= 1 && Select(s, Rank(s, x) - 1) == Some(x)
  {
    RankBounds(s, x);
    SelectIsRanked(s, Rank(s, x) - 1);
    var v := Select(s, Rank(s, x) - 1).value;
    if v < x {
      RankGrows(s, v, x);
    } else if x < v {
      RankGrows(s, x, v);
    }
  }
}
