/** Sorting by a comparison, and what it gives whatever the algorithm behind it. */
module Sorting {

  function Insert<T>(le: (T, T) -> bool, x: T, s: seq<T>): seq<T> {
    if s == [] || le(x, s[0]) then [x] + s else [s[0]] + Insert(le, x, s[1..])
  }

  function Sort<T>(le: (T, T) -> bool, s: seq<T>): seq<T> {
    if s == [] then [] else Insert(le, s[0], Sort(le, s[1..]))
  }

  /** The comparison is total and transitive on what is to be sorted. */
  ghost predicate Orders<T(!new)>(le: (T, T) -> bool, s: seq<T>) {
    && (forall a, b :: a in s && b in s ==> le(a, b) || le(b, a))
    && (forall a, b, c :: a in s && b in s && c in s && le(a, b) && le(b, c) ==> le(a, c))
  }

  ghost predicate Sorted<T>(le: (T, T) -> bool, s: seq<T>) {
    forall i, j :: 0 <= i < j < |s| ==> le(s[i], s[j])
  }

  lemma {:induction false} InsertKeeps<T>(le: (T, T) -> bool, x: T, s: seq<T>)
    ensures multiset(Insert(le, x, s)) == multiset(s) + multiset{x}
  {
    if s != [] && !le(x, s[0]) {
      InsertKeeps(le, x, s[1..]);
      assert s == [s[0]] + s[1..];
    }
  }

  lemma {:induction false} SortKeeps<T>(le: (T, T) -> bool, s: seq<T>)
    ensures multiset(Sort(le, s)) == multiset(s) && |Sort(le, s)| == |s|
    ensures forall x :: x in Sort(le, s) <==> x in s
  {
    if s != [] {
      SortKeeps(le, s[1..]);
      InsertKeeps(le, s[0], Sort(le, s[1..]));
      assert s == [s[0]] + s[1..];
    }
    SameMultiset(Sort(le, s), s);
  }

  lemma SameMultiset<T>(a: seq<T>, b: seq<T>)
    requires multiset(a) == multiset(b)
    ensures |a| == |b| && forall x :: x in a <==> x in b
  {
    assert |multiset(a)| == |a| && |multiset(b)| == |b|;
    forall x
      ensures x in a <==> x in b
    {
      assert x in multiset(a) <==> x in multiset(b);
    }
  }

  lemma SortedCons<T>(le: (T, T) -> bool, x: T, s: seq<T>)
    requires Sorted(le, s) && forall y :: y in s ==> le(x, y)
    ensures Sorted(le, [x] + s)
  {
  }

  lemma {:induction false} InsertSorts<T(!new)>(le: (T, T) -> bool, x: T, s: seq<T>)
    requires Sorted(le, s) && Orders(le, [x] + s)
    ensures Sorted(le, Insert(le, x, s))
  {
    var all := [x] + s;
    if s == [] || le(x, s[0]) {
      forall y | y in s
        ensures le(x, y)
      {
        assert x in all && s[0] in all && y in all;
      }
      SortedCons(le, x, s);
    } else {
      var t := Insert(le, x, s[1..]);
      OrdersFewer(le, all, [x] + s[1..]);
      InsertSorts(le, x, s[1..]);
      InsertKeeps(le, x, s[1..]);
      forall y | y in t
        ensures le(s[0], y)
      {
        assert y in multiset(t);
        assert x in all && s[0] in all;
      }
      SortedCons(le, s[0], t);
    }
  }

  lemma OrdersFewer<T(!new)>(le: (T, T) -> bool, all: seq<T>, some: seq<T>)
    requires Orders(le, all) && forall x :: x in some ==> x in all
    ensures Orders(le, some)
  {
  }

  lemma {:induction false} SortSorts<T(!new)>(le: (T, T) -> bool, s: seq<T>)
    requires Orders(le, s)
    ensures Sorted(le, Sort(le, s))
  {
    if s != [] {
      var rest := Sort(le, s[1..]);
      SortKeeps(le, s[1..]);
      OrdersFewer(le, s, s[1..]);
      SortSorts(le, s[1..]);
      OrdersFewer(le, s, [s[0]] + rest);
      InsertSorts(le, s[0], rest);
    }
  }

  // ---------- keys ----------

  ghost predicate KeysDistinct<T, K>(key: T -> K, s: seq<T>) {
    forall i, j :: 0 <= i < j < |s| ==> key(s[i]) != key(s[j])
  }

  /** What occurs twice stands in two places. */
  lemma {:induction false} TwoPlaces<T>(s: seq<T>, x: T)
    requires multiset(s)[x] >= 2
    ensures exists i, j :: 0 <= i < j < |s| && s[i] == x && s[j] == x
  {
    assert s == [s[0]] + s[1..];
    if s[0] == x {
      assert x in multiset(s[1..]);
      var j :| 0 <= j < |s[1..]| && s[1..][j] == x;
      assert s[0] == x && s[j + 1] == x;
    } else {
      TwoPlaces(s[1..], x);
      var i, j :| 0 <= i < j < |s[1..]| && s[1..][i] == x && s[1..][j] == x;
      assert s[i + 1] == x && s[j + 1] == x;
    }
  }

  lemma Twice<T>(s: seq<T>, i: nat, j: nat)
    requires i < j < |s| && s[i] == s[j]
    ensures multiset(s)[s[i]] >= 2
  {
    assert s == s[..j] + [s[j]] + s[j + 1..] && s[i] in s[..j];
  }

  /** Distinct keys stay distinct in any other order. */
  lemma KeysPermuted<T, K>(key: T -> K, a: seq<T>, b: seq<T>)
    requires KeysDistinct(key, a) && multiset(a) == multiset(b)
    ensures KeysDistinct(key, b)
  {
    forall i, j | 0 <= i < j < |b|
      ensures key(b[i]) != key(b[j])
    {
      SameMultiset(a, b);
      if b[i] == b[j] {
        Twice(b, i, j);
        TwoPlaces(a, b[i]);
      } else {
        assert b[i] in a && b[j] in a;
      }
    }
  }

  /** Lists without repetition and with the same members have the same multiset. */
  lemma SameMembers<T, K>(key: T -> K, a: seq<T>, b: seq<T>)
    requires KeysDistinct(key, a) && KeysDistinct(key, b) && forall x :: x in a <==> x in b
    ensures multiset(a) == multiset(b)
  {
    forall x
      ensures multiset(a)[x] == multiset(b)[x]
    {
      assert x in a <==> multiset(a)[x] > 0;
      assert x in b <==> multiset(b)[x] > 0;
      if multiset(a)[x] >= 2 { TwoPlaces(a, x); }
      if multiset(b)[x] >= 2 { TwoPlaces(b, x); }
    }
  }

  /** A multiset has one sorted list, where the comparison tells its members apart. */
  lemma {:induction false} SortedUnique<T>(le: (T, T) -> bool, a: seq<T>, b: seq<T>)
    requires Sorted(le, a) && Sorted(le, b) && multiset(a) == multiset(b)
    requires forall x, y :: x in a && y in a && le(x, y) && le(y, x) ==> x == y
    ensures a == b
  {
    SameMultiset(a, b);
    if a != [] {
      assert a[0] in b && b[0] in a;
      assert a[0] == b[0];
      TailMultiset(a);
      TailMultiset(b);
      SortedUnique(le, a[1..], b[1..]);
    }
  }

  lemma TailMultiset<T>(s: seq<T>)
    requires s != []
    ensures multiset(s[1..]) == multiset(s) - multiset{s[0]} && s == [s[0]] + s[1..]
  {
    assert s == [s[0]] + s[1..];
  }
}
