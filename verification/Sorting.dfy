// A stable sort by an integer key: elements with equal keys keep their order.

module Sorting {
  import opened Lists

  predicate SortedBy<T(!new)>(ts: seq<T>, key: T -> int) {
    forall i, j :: 0 <= i < j < |ts| ==> key(ts[i]) <= key(ts[j])
  }

  function Insert<T>(t: T, ts: seq<T>, key: T -> int): (r: seq<T>)
    ensures multiset(r) == multiset([t]) + multiset(ts)
    decreases |ts|
  {
    if ts == [] || key(t) <= key(ts[0]) then [t] + ts
    else
      assert ts == [ts[0]] + ts[1..];
      [ts[0]] + Insert(t, ts[1..], key)
  }

  function SortBy<T>(ts: seq<T>, key: T -> int): (r: seq<T>)
    ensures multiset(r) == multiset(ts)
    decreases |ts|
  {
    if ts == [] then []
    else
      assert ts == [ts[0]] + ts[1..];
      Insert(ts[0], SortBy(ts[1..], key), key)
  }

  lemma {:induction false} InsertKeepsOrder<T(!new)>(t: T, ts: seq<T>, key: T -> int)
    requires SortedBy(ts, key)
    ensures SortedBy(Insert(t, ts, key), key)
    ensures forall x :: x in Insert(t, ts, key) <==> x == t || x in ts
    ensures Distinct(ts) && t !in ts ==> Distinct(Insert(t, ts, key))
    decreases |ts|
  {
    if ts != [] && key(t) > key(ts[0]) {
      assert ts == [ts[0]] + ts[1..];
      InsertKeepsOrder(t, ts[1..], key);
      FirstStaysFirst(t, ts, Insert(t, ts[1..], key), key);
    }
  }

  lemma FirstStaysFirst<T(!new)>(t: T, ts: seq<T>, rest: seq<T>, key: T -> int)
    requires ts != [] && SortedBy(ts, key) && key(t) > key(ts[0]) && SortedBy(rest, key)
    requires forall x :: x in rest <==> x == t || x in ts[1..]
    ensures SortedBy([ts[0]] + rest, key)
    ensures Distinct(ts) && t !in ts && Distinct(rest) ==> Distinct([ts[0]] + rest)
  {
    forall i | 0 <= i < |rest|
      ensures key(ts[0]) <= key(rest[i])
      ensures Distinct(ts) && t !in ts ==> rest[i] != ts[0]
    {
      assert rest[i] in rest;
      if rest[i] != t { var j :| 0 < j < |ts| && ts[j] == rest[i]; }
    }
  }

  lemma {:induction false} SortIsSorted<T(!new)>(ts: seq<T>, key: T -> int)
    ensures SortedBy(SortBy(ts, key), key)
    ensures forall x :: x in SortBy(ts, key) <==> x in ts
    ensures Distinct(ts) ==> Distinct(SortBy(ts, key))
    decreases |ts|
  {
    if ts == [] {
    } else {
      assert ts == [ts[0]] + ts[1..];
      SortIsSorted(ts[1..], key);
      InsertKeepsOrder(ts[0], SortBy(ts[1..], key), key);
    }
  }

  // ---------- stability ----------

  // The elements with key k, in order.
  function WithKey<T>(ts: seq<T>, key: T -> int, k: int): seq<T> {
    if ts == [] then [] else (if key(ts[0]) == k then [ts[0]] else []) + WithKey(ts[1..], key, k)
  }

  lemma {:induction false} InsertIsStable<T>(t: T, ts: seq<T>, key: T -> int, k: int)
    ensures WithKey(Insert(t, ts, key), key, k) == WithKey([t] + ts, key, k)
    decreases |ts|
  {
    assert ([t] + ts)[1..] == ts;
    if ts != [] && key(t) > key(ts[0]) {
      InsertIsStable(t, ts[1..], key, k);
      assert ([t] + ts[1..])[1..] == ts[1..];
      assert ([ts[0]] + Insert(t, ts[1..], key))[1..] == Insert(t, ts[1..], key);
    }
  }

  lemma {:induction false} SortIsStable<T>(ts: seq<T>, key: T -> int, k: int)
    ensures WithKey(SortBy(ts, key), key, k) == WithKey(ts, key, k)
    decreases |ts|
  {
    if ts == [] {
    } else {
      SortIsStable(ts[1..], key, k);
      InsertIsStable(ts[0], SortBy(ts[1..], key), key, k);
      assert ([ts[0]] + SortBy(ts[1..], key))[1..] == SortBy(ts[1..], key);
    }
  }
}
