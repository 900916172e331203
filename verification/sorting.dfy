/**
  The `$sort` stage: rows reordered so that their sort keys ascend.

  The store does not promise any particular order among rows whose keys are
  equal, so what is stated about a sort is exactly that its result is a
  permutation of its input and that the keys ascend.
 */
module Sorting {
  import opened Ordering
  import opened Collections

  /** Every earlier row's key is at most every later row's key. */
  predicate SortedBy<T>(xs: seq<T>, key: T -> seq<Key>)
  {
    forall i, j :: 0 <= i < j < |xs| ==> KeysLe(key(xs[i]), key(xs[j]))
  }

  /** Inserts `x` into an already sorted sequence. */
  function Insert<T>(x: T, xs: seq<T>, key: T -> seq<Key>): (r: seq<T>)
    requires SortedBy(xs, key)
    ensures multiset(r) == multiset(xs) + multiset{x}
    ensures SortedBy(r, key)
    decreases |xs|
  {
    if |xs| == 0 then
      [x]
    else if KeysLe(key(x), key(xs[0])) then
      InsertFront(x, xs, key);
      assert multiset([x] + xs) == multiset{x} + multiset(xs);
      [x] + xs
    else
      var rest := Insert(x, xs[1..], key);
      KeysLeTotal(key(x), key(xs[0]));
      InsertBehind(x, xs, rest, key);
      assert xs == [xs[0]] + xs[1..];
      assert multiset([xs[0]] + rest) == multiset{xs[0]} + multiset(rest);
      [xs[0]] + rest
  }

  /** Placing `x` before a sorted sequence whose first key is not smaller keeps it sorted. */
  lemma InsertFront<T>(x: T, xs: seq<T>, key: T -> seq<Key>)
    requires SortedBy(xs, key)
    requires |xs| > 0 && KeysLe(key(x), key(xs[0]))
    ensures SortedBy([x] + xs, key)
  {
    var r := [x] + xs;
    forall i, j | 0 <= i < j < |r|
      ensures KeysLe(key(r[i]), key(r[j]))
    {
      if i == 0 && j > 1 {
        KeysLeTrans(key(x), key(xs[0]), key(xs[j - 1]));
      }
    }
  }

  /** Placing the smallest element before the sorted insertion into the tail keeps it sorted. */
  lemma InsertBehind<T>(x: T, xs: seq<T>, rest: seq<T>, key: T -> seq<Key>)
    requires SortedBy(xs, key)
    requires |xs| > 0 && KeysLe(key(xs[0]), key(x))
    requires SortedBy(rest, key)
    requires multiset(rest) == multiset(xs[1..]) + multiset{x}
    ensures SortedBy([xs[0]] + rest, key)
  {
    var r := [xs[0]] + rest;
    forall i, j | 0 <= i < j < |r|
      ensures KeysLe(key(r[i]), key(r[j]))
    {
      if i == 0 {
        var y := rest[j - 1];
        assert y in multiset(rest);
        if y != x {
          assert y in multiset(xs[1..]);
          var k :| 0 <= k < |xs[1..]| && xs[1..][k] == y;
          assert xs[k + 1] == y;
        }
      }
    }
  }

  /** Insertion sort: a permutation of `xs` whose keys ascend. */
  function SortBy<T>(xs: seq<T>, key: T -> seq<Key>): (r: seq<T>)
    ensures multiset(r) == multiset(xs)
    ensures |r| == |xs|
    ensures SortedBy(r, key)
    decreases |xs|
  {
    if |xs| == 0 then
      []
    else
      assert xs == [xs[0]] + xs[1..];
      Insert(xs[0], SortBy(xs[1..], key), key)
  }

  /** Inserting adds exactly the inserted row to a sum. */
  lemma {:induction false} SumOfInsert<T>(x: T, xs: seq<T>, key: T -> seq<Key>, f: T -> int)
    requires SortedBy(xs, key)
    ensures SumOf(Insert(x, xs, key), f) == f(x) + SumOf(xs, f)
    decreases |xs|
  {
    if |xs| > 0 && !KeysLe(key(x), key(xs[0])) {
      var r := Insert(x, xs, key);
      assert r[1..] == Insert(x, xs[1..], key);
      SumOfInsert(x, xs[1..], key, f);
    }
  }

  /** Sorting does not change a sum over the rows. */
  lemma {:induction false} SumOfSortBy<T>(xs: seq<T>, key: T -> seq<Key>, f: T -> int)
    ensures SumOf(SortBy(xs, key), f) == SumOf(xs, f)
    decreases |xs|
  {
    if |xs| > 0 {
      SumOfSortBy(xs[1..], key, f);
      SumOfInsert(xs[0], SortBy(xs[1..], key), key, f);
    }
  }

  /** Inserting a row whose `f` value is new keeps `f` unique. */
  lemma {:induction false} InjectiveInsert<T, K>(x: T, xs: seq<T>, key: T -> seq<Key>, f: T -> K)
    requires SortedBy(xs, key)
    requires Injective(xs, f) && !HasKey(xs, f, f(x))
    ensures Injective(Insert(x, xs, key), f)
    decreases |xs|
  {
    if |xs| == 0 {
      InjectiveCons(x, xs, f);
    } else if KeysLe(key(x), key(xs[0])) {
      InjectiveCons(x, xs, f);
    } else {
      assert xs == [xs[0]] + xs[1..];
      InjectiveTail(xs[0], xs[1..], f);
      HasKeyAppend([xs[0]], xs[1..], f, f(x));
      InjectiveInsert(x, xs[1..], key, f);
      var rest := Insert(x, xs[1..], key);
      assert multiset(rest) == multiset(xs[1..] + [x]);
      if HasKey(rest, f, f(xs[0])) {
        HasKeyPerm(rest, xs[1..] + [x], f, f(xs[0]));
        HasKeyAppend(xs[1..], [x], f, f(xs[0]));
        assert false;
      }
      InjectiveCons(xs[0], rest, f);
    }
  }

  /** Sorting keeps a unique key unique. */
  lemma {:induction false} InjectiveSortBy<T, K>(xs: seq<T>, key: T -> seq<Key>, f: T -> K)
    requires Injective(xs, f)
    ensures Injective(SortBy(xs, key), f)
    decreases |xs|
  {
    if |xs| > 0 {
      var tail := xs[1..];
      assert xs == [xs[0]] + tail;
      InjectiveTail(xs[0], tail, f);
      InjectiveSortBy(tail, key, f);
      var sorted := SortBy(tail, key);
      if HasKey(sorted, f, f(xs[0])) {
        HasKeyPerm(sorted, tail, f, f(xs[0]));
        assert false;
      }
      InjectiveInsert(xs[0], sorted, key, f);
    }
  }
}
