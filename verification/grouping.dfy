/**
  The `$group` stage with a `{$sum: 1}` accumulator: one group per distinct
  key, holding the number of input rows that carry that key.

  The store does not promise an order for the groups it emits; this model
  emits them in order of first appearance of their key.
 */
module Grouping {
  import opened Collections

  datatype Group<K> = Group(key: K, count: nat)

  /** No key is the key of two groups. */
  predicate DistinctKeys<K(==)>(gs: seq<Group<K>>)
  {
    forall i, j :: 0 <= i < j < |gs| ==> gs[i].key != gs[j].key
  }

  /** Every group counts at least one row. */
  predicate Positive<K>(gs: seq<Group<K>>)
  {
    forall i :: 0 <= i < |gs| ==> gs[i].count >= 1
  }

  function KeysOf<K>(gs: seq<Group<K>>): set<K>
  {
    set g | g in gs :: g.key
  }

  /** The count of the first group with key `k`, or 0 when there is none. */
  function CountOf<K(==)>(gs: seq<Group<K>>, k: K): nat
  {
    if |gs| == 0 then 0
    else if gs[0].key == k then gs[0].count
    else CountOf(gs[1..], k)
  }

  /** The sum of all counts. */
  function Total<K>(gs: seq<Group<K>>): nat
  {
    if |gs| == 0 then 0 else gs[0].count + Total(gs[1..])
  }

  /** Accounts for one more row with key `k`. */
  function Bump<K(==,!new)>(gs: seq<Group<K>>, k: K): (r: seq<Group<K>>)
    requires DistinctKeys(gs)
    ensures DistinctKeys(r)
    ensures forall j :: j in KeysOf(r) <==> j == k || j in KeysOf(gs)
    ensures forall j :: CountOf(r, j) == CountOf(gs, j) + (if j == k then 1 else 0)
    ensures Total(r) == Total(gs) + 1
    ensures Positive(gs) ==> Positive(r)
    decreases |gs|
  {
    if |gs| == 0 then
      var r := [Group(k, 1)];
      Cons(Group(k, 1), []);
      assert r == [Group(k, 1)] + [];
      r
    else
      assert gs == [gs[0]] + gs[1..];
      Cons(gs[0], gs[1..]);
      if gs[0].key == k then
        var g := gs[0].(count := gs[0].count + 1);
        Cons(g, gs[1..]);
        [g] + gs[1..]
      else
        var rest := Bump(gs[1..], k);
        Cons(gs[0], rest);
        [gs[0]] + rest
  }

  /** How a group placed before others contributes to the keys, counts and total. */
  lemma Cons<K>(g: Group<K>, rest: seq<Group<K>>)
    ensures KeysOf([g] + rest) == {g.key} + KeysOf(rest)
    ensures forall j :: CountOf([g] + rest, j) == if g.key == j then g.count else CountOf(rest, j)
    ensures Total([g] + rest) == g.count + Total(rest)
    ensures DistinctKeys([g] + rest) <==> g.key !in KeysOf(rest) && DistinctKeys(rest)
    ensures Positive([g] + rest) <==> g.count >= 1 && Positive(rest)
  {
    var r := [g] + rest;
    assert r[1..] == rest;
    assert forall h :: h in r <==> h == g || h in rest;
    if g.key in KeysOf(rest) {
      var h :| h in rest && h.key == g.key;
      var i :| 0 <= i < |rest| && rest[i] == h;
      assert r[0].key == r[i + 1].key;
    }
    if DistinctKeys(r) {
      forall i, j | 0 <= i < j < |rest| ensures rest[i].key != rest[j].key {
        assert r[i + 1] == rest[i] && r[j + 1] == rest[j];
      }
    }
    if g.count >= 1 && Positive(rest) {
      forall i | 0 <= i < |r| ensures r[i].count >= 1 {
        if i > 0 {
          assert r[i] == rest[i - 1];
        }
      }
    }
    if Positive(r) {
      forall i | 0 <= i < |rest| ensures rest[i].count >= 1 {
        assert r[i + 1] == rest[i];
      }
    }
  }

  /** Groups the keys of a row sequence and counts each group. */
  function GroupCount<K(==,!new)>(keys: seq<K>): (r: seq<Group<K>>)
    ensures DistinctKeys(r)
    ensures Positive(r)
    ensures forall k :: k in KeysOf(r) <==> k in keys
    ensures forall k :: CountOf(r, k) == multiset(keys)[k]
    ensures Total(r) == |keys|
    decreases |keys|
  {
    if |keys| == 0 then
      []
    else
      var n := |keys| - 1;
      assert keys == keys[..n] + [keys[n]];
      assert (set k | k in keys) == (set k | k in keys[..n]) + {keys[n]};
      Bump(GroupCount(keys[..n]), keys[n])
  }

  /** In groups with distinct keys, a group's count is the count for its key. */
  lemma {:induction false} CountOfMember<K>(gs: seq<Group<K>>, i: nat)
    requires DistinctKeys(gs)
    requires i < |gs|
    ensures CountOf(gs, gs[i].key) == gs[i].count
    decreases i
  {
    if i > 0 {
      CountOfMember(gs[1..], i - 1);
    }
  }

  /** A key that labels no group has count 0. */
  lemma {:induction false} CountOfAbsent<K>(gs: seq<Group<K>>, k: K)
    requires k !in KeysOf(gs)
    ensures CountOf(gs, k) == 0
    decreases |gs|
  {
    if |gs| > 0 {
      assert gs[0] in gs;
      assert KeysOf(gs[1..]) <= KeysOf(gs);
      CountOfAbsent(gs[1..], k);
    }
  }

  // ----- Rows -----

  /** The `$project` after a `$group`: one row per group, built by `mk` from the group's key and count. */
  function ToRows<K, R>(gs: seq<Group<K>>, mk: (K, nat) -> R): (r: seq<R>)
    ensures |r| == |gs|
    ensures forall i :: 0 <= i < |gs| ==> r[i] == mk(gs[i].key, gs[i].count)
  {
    seq(|gs|, i requires 0 <= i < |gs| => mk(gs[i].key, gs[i].count))
  }

  lemma {:induction false} SumOfToRows<K, R>(gs: seq<Group<K>>, mk: (K, nat) -> R, count: R -> int)
    requires forall k, n :: count(mk(k, n)) == n
    ensures SumOf(ToRows(gs, mk), count) == Total(gs)
    decreases |gs|
  {
    if |gs| > 0 {
      assert ToRows(gs, mk)[1..] == ToRows(gs[1..], mk);
      SumOfToRows(gs[1..], mk, count);
    }
  }

  /**
    Rows made from groups with distinct keys, by a constructor whose row
    carries the group's key and count: one row per key, each with its
    group's positive count, and the counts add up to the total.
   */
  lemma RowsOfGroups<K, R>(gs: seq<Group<K>>, mk: (K, nat) -> R, key: R -> K, count: R -> int)
    requires DistinctKeys(gs) && Positive(gs)
    requires forall k, n :: key(mk(k, n)) == k && count(mk(k, n)) == n
    ensures Injective(ToRows(gs, mk), key)
    ensures forall x :: x in ToRows(gs, mk) ==> count(x) >= 1 && count(x) == CountOf(gs, key(x))
    ensures forall k :: k in KeysOf(gs) <==> HasKey(ToRows(gs, mk), key, k)
    ensures SumOf(ToRows(gs, mk), count) == Total(gs)
  {
    var rows := ToRows(gs, mk);
    forall i, j | 0 <= i < j < |rows| ensures key(rows[i]) != key(rows[j]) {
      assert key(rows[i]) == gs[i].key && key(rows[j]) == gs[j].key;
    }
    forall x | x in rows ensures count(x) >= 1 && count(x) == CountOf(gs, key(x)) {
      var i :| 0 <= i < |rows| && rows[i] == x;
      CountOfMember(gs, i);
    }
    forall k ensures k in KeysOf(gs) <==> HasKey(rows, key, k) {
      if k in KeysOf(gs) {
        var g :| g in gs && g.key == k;
        var i :| 0 <= i < |gs| && gs[i] == g;
        assert key(rows[i]) == k;
      }
      if HasKey(rows, key, k) {
        var i :| 0 <= i < |rows| && key(rows[i]) == k;
        assert gs[i] in gs;
      }
    }
    SumOfToRows(gs, mk, count);
  }
}
