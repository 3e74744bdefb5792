/** Sequence vocabulary used across the model. */
module Sequences {
  import opened Collections

  ghost predicate Distinct<T>(s: seq<T>) {
    forall i, j :: 0 <= i < j < |s| ==> s[i] != s[j]
  }

  lemma DistinctSnoc<T>(front: seq<T>, last: T)
    ensures Distinct(front + [last]) <==> Distinct(front) && last !in front
  {
    var s := front + [last];
    assert s[|front|] == last && forall i :: 0 <= i < |front| ==> s[i] == front[i];
  }

  /** A duplicate-free list of members of a finite set is no longer than the set. */
  lemma {:induction false} DistinctFits<T>(s: seq<T>, space: set<T>)
    requires Distinct(s) && forall x :: x in s ==> x in space
    ensures |s| <= |space|
  {
    if s != [] {
      var n := |s| - 1;
      forall x | x in s[..n]
        ensures x in space - {s[n]}
      {
      }
      DistinctFits(s[..n], space - {s[n]});
    }
  }

  // ----------------------------------------------------------------- filters

  /** The members of s that satisfy p, in order. */
  function Filter<T>(p: T -> bool, s: seq<T>): seq<T> {
    if s == [] then []
    else
      var front := Filter(p, s[..|s| - 1]);
      if p(s[|s| - 1]) then front + [s[|s| - 1]] else front
  }

  lemma {:induction false} FilterMembers<T>(p: T -> bool, s: seq<T>)
    ensures forall x :: x in Filter(p, s) <==> x in s && p(x)
  {
    if s != [] {
      FilterMembers(p, s[..|s| - 1]);
      assert s == s[..|s| - 1] + [s[|s| - 1]];
    }
  }

  lemma {:induction false} FilterSame<T>(p: T -> bool, q: T -> bool, s: seq<T>)
    requires forall x :: x in s ==> p(x) == q(x)
    ensures Filter(p, s) == Filter(q, s)
  {
    if s != [] {
      FilterSame(p, q, s[..|s| - 1]);
    }
  }

  function Both<T>(p: T -> bool, q: T -> bool): T -> bool {
    x => p(x) && q(x)
  }

  lemma {:induction false} FilterTwice<T>(p: T -> bool, q: T -> bool, s: seq<T>)
    ensures Filter(p, Filter(q, s)) == Filter(Both(p, q), s)
  {
    if s != [] {
      var front, last := s[..|s| - 1], s[|s| - 1];
      FilterTwice(p, q, front);
      if q(last) {
        var f := Filter(q, front) + [last];
        assert f[..|f| - 1] == Filter(q, front);
      }
    }
  }

  // --------------------------------------------------------- ascending lists

  ghost predicate Ascending(s: seq<int>) {
    forall i, j :: 0 <= i < j < |s| ==> s[i] < s[j]
  }

  /** Insertion into an ascending list; a member is not inserted again. */
  function InsertId(x: int, s: seq<int>): seq<int> {
    if s == [] then [x]
    else if x < s[0] then [x] + s
    else if x == s[0] then s
    else [s[0]] + InsertId(x, s[1..])
  }

  lemma {:induction false} InsertIdMembers(x: int, s: seq<int>)
    ensures forall y :: y in InsertId(x, s) <==> y == x || y in s
  {
    if s != [] && x > s[0] {
      InsertIdMembers(x, s[1..]);
      assert s == [s[0]] + s[1..];
    }
  }

  lemma {:induction false} InsertIdAscending(x: int, s: seq<int>)
    requires Ascending(s)
    ensures Ascending(InsertId(x, s))
  {
    if s != [] && x > s[0] {
      InsertIdAscending(x, s[1..]);
      InsertIdMembers(x, s[1..]);
      var r := InsertId(x, s[1..]);
      forall j | 0 <= j < |r|
        ensures s[0] < r[j]
      {
        assert r[j] in r;
      }
    }
  }

  /** An ascending list is determined by its members. */
  lemma {:induction false} AscendingUnique(s: seq<int>, t: seq<int>)
    requires Ascending(s) && Ascending(t) && forall x :: x in s <==> x in t
    ensures s == t
  {
    if t != [] {
      assert t[0] in t;
    }
    if s != [] {
      assert s[0] in s && s[0] in t && t != [] && t[0] in s;
      assert s[0] == t[0];
      forall x
        ensures x in s[1..] <==> x in t[1..]
      {
        assert x in s[1..] <==> x in s && x != s[0];
        assert x in t[1..] <==> x in t && x != t[0];
      }
      AscendingUnique(s[1..], t[1..]);
    }
  }

  lemma {:induction false} FilterAscending(p: int -> bool, s: seq<int>)
    requires Ascending(s)
    ensures Ascending(Filter(p, s))
  {
    if s != [] {
      FilterAscending(p, s[..|s| - 1]);
      FilterMembers(p, s[..|s| - 1]);
      var f := Filter(p, s[..|s| - 1]);
      forall i | 0 <= i < |f|
        ensures f[i] < s[|s| - 1]
      {
        assert f[i] in f;
      }
    }
  }

  /** sorted() of a set of ids. */
  method SortedIds(ids: set<int>) returns (s: seq<int>)
    ensures Ascending(s) && forall x :: x in s <==> x in ids
  {
    s := [];
    var rest := ids;
    while rest != {}
      invariant Ascending(s) && forall x :: x in ids <==> x in rest || x in s
      decreases |rest|
    {
      ghost var y := SomeMember(rest);
      var x :| x in rest;
      InsertIdAscending(x, s);
      InsertIdMembers(x, s);
      s := InsertId(x, s);
      rest := rest - {x};
    }
  }
}
