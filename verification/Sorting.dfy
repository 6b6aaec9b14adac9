/**
 * Stable sorting: the meaning of JavaScript's Array.prototype.sort and of a
 * database "order by" on a total preorder.
 */
module Sorting {

  ghost predicate TotalPreorder<T(!new)>(leq: (T, T) -> bool) {
    && (forall x, y :: leq(x, y) || leq(y, x))
    && (forall x, y, z :: leq(x, y) && leq(y, z) ==> leq(x, z))
  }

  predicate SortedBy<T>(s: seq<T>, leq: (T, T) -> bool) {
    forall i, j :: 0 <= i < j < |s| ==> leq(s[i], s[j])
  }

  function Insert<T>(x: T, s: seq<T>, leq: (T, T) -> bool): (r: seq<T>)
    ensures multiset(r) == multiset(s) + multiset{x} && |r| == |s| + 1
  {
    if s == [] then [x]
    else if leq(x, s[0]) then [x] + s
    else
      assert s == [s[0]] + s[1..];
      [s[0]] + Insert(x, s[1..], leq)
  }

  function StableSort<T>(s: seq<T>, leq: (T, T) -> bool): (r: seq<T>)
    ensures multiset(r) == multiset(s) && |r| == |s|
  {
    if s == [] then []
    else
      assert s == [s[0]] + s[1..];
      Insert(s[0], StableSort(s[1..], leq), leq)
  }

  predicate Tie<T>(x: T, c: T, leq: (T, T) -> bool) {
    leq(x, c) && leq(c, x)
  }

  /** The elements of s that tie with c, in the order in which s holds them. */
  function Ties<T>(s: seq<T>, c: T, leq: (T, T) -> bool): seq<T> {
    if s == [] then []
    else (if Tie(s[0], c, leq) then [s[0]] else []) + Ties(s[1..], c, leq)
  }

  lemma ConsSorted<T>(x: T, s: seq<T>, leq: (T, T) -> bool)
    requires SortedBy(s, leq) && forall y :: y in s ==> leq(x, y)
    ensures SortedBy([x] + s, leq)
  {}

  lemma BelowAll<T(!new)>(x: T, s: seq<T>, leq: (T, T) -> bool)
    requires TotalPreorder(leq) && SortedBy(s, leq) && s != [] && leq(x, s[0])
    ensures forall y :: y in s ==> leq(x, y)
  {
    forall i | 0 <= i < |s|
      ensures leq(x, s[i])
    {
      assert i > 0 ==> leq(s[0], s[i]);
    }
  }

  lemma {:induction false} InsertSorts<T(!new)>(x: T, s: seq<T>, leq: (T, T) -> bool)
    requires TotalPreorder(leq) && SortedBy(s, leq)
    ensures SortedBy(Insert(x, s, leq), leq)
    ensures forall y :: y in Insert(x, s, leq) <==> y == x || y in s
  {
    if s == [] {
    } else if leq(x, s[0]) {
      BelowAll(x, s, leq);
      ConsSorted(x, s, leq);
    } else {
      InsertSorts(x, s[1..], leq);
      assert s == [s[0]] + s[1..];
      BelowAll(s[0], s, leq);
      ConsSorted(s[0], Insert(x, s[1..], leq), leq);
    }
  }

  lemma TiesCons<T>(x: T, s: seq<T>, c: T, leq: (T, T) -> bool)
    ensures Ties([x] + s, c, leq) == if Tie(x, c, leq) then [x] + Ties(s, c, leq) else Ties(s, c, leq)
  {
    assert ([x] + s)[1..] == s;
  }

  lemma {:induction false} InsertKeepsTies<T(!new)>(x: T, s: seq<T>, c: T, leq: (T, T) -> bool)
    requires TotalPreorder(leq)
    ensures Ties(Insert(x, s, leq), c, leq) == Ties([x] + s, c, leq)
  {
    if s == [] {
      assert [x] + s == [x];
    } else if !leq(x, s[0]) {
      var y, rest := s[0], s[1..];
      assert s == [y] + rest;
      InsertKeepsTies(x, rest, c, leq);
      TiesCons(y, Insert(x, rest, leq), c, leq);
      TiesCons(x, rest, c, leq);
      TiesCons(x, s, c, leq);
      TiesCons(y, rest, c, leq);
      assert !(Tie(x, c, leq) && Tie(y, c, leq));
    }
  }

  /** Sorted, and ties keep their original order (the permutation is StableSort's own contract). */
  lemma {:induction false} StableSortSorts<T(!new)>(s: seq<T>, leq: (T, T) -> bool)
    requires TotalPreorder(leq)
    ensures SortedBy(StableSort(s, leq), leq)
    ensures forall c :: Ties(StableSort(s, leq), c, leq) == Ties(s, c, leq)
  {
    if s != [] {
      StableSortSorts(s[1..], leq);
      var rest := StableSort(s[1..], leq);
      InsertSorts(s[0], rest, leq);
      forall c
        ensures Ties(StableSort(s, leq), c, leq) == Ties(s, c, leq)
      {
        InsertKeepsTies(s[0], rest, c, leq);
        assert ([s[0]] + rest)[1..] == rest;
      }
    }
  }

  predicate Before<T(==)>(s: seq<T>, p: T, q: T) {
    exists i, j :: 0 <= i < j < |s| && s[i] == p && s[j] == q
  }

  lemma BeforeCons<T>(x: T, s: seq<T>, p: T, q: T)
    ensures Before([x] + s, p, q) <==> Before(s, p, q) || (x == p && q in s)
  {
    var all := [x] + s;
    if i, j :| 0 <= i < j < |all| && all[i] == p && all[j] == q {
      assert s[j - 1] == q && (i > 0 ==> s[i - 1] == p);
    }
    if i, j :| 0 <= i < j < |s| && s[i] == p && s[j] == q {
      assert all[i + 1] == p && all[j + 1] == q;
    }
    if x == p && q in s {
      var j :| 0 <= j < |s| && s[j] == q;
      assert all[0] == p && all[j + 1] == q;
    }
  }

  /** Among elements that tie with c, the ties list has the order of the whole list. */
  lemma {:induction false} TiesKeepOrder<T>(s: seq<T>, c: T, p: T, q: T, leq: (T, T) -> bool)
    requires Tie(p, c, leq) && Tie(q, c, leq)
    ensures q in Ties(s, c, leq) <==> q in s
    ensures Before(Ties(s, c, leq), p, q) <==> Before(s, p, q)
  {
    if s != [] {
      TiesKeepOrder(s[1..], c, p, q, leq);
      assert s == [s[0]] + s[1..];
      TiesCons(s[0], s[1..], c, leq);
      BeforeCons(s[0], s[1..], p, q);
      BeforeCons(s[0], Ties(s[1..], c, leq), p, q);
    }
  }

  /** Elements that tie keep their order. */
  lemma StableSortKeepsOrder<T(!new)>(s: seq<T>, p: T, q: T, leq: (T, T) -> bool)
    requires TotalPreorder(leq) && Before(s, p, q) && Tie(p, q, leq)
    ensures Before(StableSort(s, leq), p, q)
  {
    StableSortSorts(s, leq);
    TiesKeepOrder(s, p, p, q, leq);
    TiesKeepOrder(StableSort(s, leq), p, p, q, leq);
  }

  // ----- keys survive reordering

  predicate DistinctBy<T, K(==)>(s: seq<T>, key: T -> K) {
    forall i, j :: 0 <= i < j < |s| ==> key(s[i]) != key(s[j])
  }

  lemma TwiceIsTwo<T>(s: seq<T>, i: nat, j: nat)
    requires i < j < |s| && s[i] == s[j]
    ensures multiset(s)[s[i]] >= 2
  {
    assert s == s[..j] + [s[j]] + s[j + 1..];
    assert s[i] in s[..j];
  }

  lemma {:induction false} OnceIsOne<T, K>(s: seq<T>, x: T, key: T -> K)
    requires DistinctBy(s, key)
    ensures multiset(s)[x] <= 1
  {
    if s != [] {
      var rest := s[..|s| - 1];
      assert s == rest + [s[|s| - 1]];
      OnceIsOne(rest, x, key);
      if x == s[|s| - 1] {
        assert x !in rest;
      }
    }
  }

  /** Listing the same elements in another order keeps their keys distinct. */
  lemma ReorderKeepsDistinct<T, K>(s: seq<T>, t: seq<T>, key: T -> K)
    requires multiset(s) == multiset(t) && DistinctBy(s, key)
    ensures DistinctBy(t, key)
    ensures forall x :: x in t <==> x in s
  {
    forall x
      ensures x in t <==> x in s
    {
      assert x in t <==> x in multiset(t);
      assert x in s <==> x in multiset(s);
    }
    forall i, j | 0 <= i < j < |t|
      ensures key(t[i]) != key(t[j])
    {
      if key(t[i]) == key(t[j]) {
        assert t[i] in s && t[j] in s;
        assert t[i] == t[j];
        TwiceIsTwo(t, i, j);
        OnceIsOne(s, t[i], key);
      }
    }
  }
}
