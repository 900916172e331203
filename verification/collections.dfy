/** Keyed sequences: uniqueness of a key, lookup by key, and id allocation. */
module Collections {
  import opened Wrappers

  /** No two records of `xs` share a value of `f` (a unique index on `f`). */
  predicate Injective<T, K(==)>(xs: seq<T>, f: T -> K)
  {
    forall i, j :: 0 <= i < j < |xs| ==> f(xs[i]) != f(xs[j])
  }

  /** True when some record of `xs` has key `k`. */
  predicate HasKey<T, K(==)>(xs: seq<T>, f: T -> K, k: K)
  {
    exists i :: 0 <= i < |xs| && f(xs[i]) == k
  }

  /**
    The records of `xs` whose key is `k`, in order: what a `$lookup` stage
    attaches to a document for a local field value `k`.
   */
  function WithKey<T(!new), K(==)>(xs: seq<T>, f: T -> K, k: K): (r: seq<T>)
    ensures forall x :: x in r <==> x in xs && f(x) == k
    ensures |r| <= |xs|
    decreases |xs|
  {
    if |xs| == 0 then
      []
    else
      var rest := WithKey(xs[1..], f, k);
      assert forall x :: x in xs <==> x == xs[0] || x in xs[1..] by {
        assert xs == [xs[0]] + xs[1..];
      }
      if f(xs[0]) == k then [xs[0]] + rest else rest
  }

  /** A lookup finds nothing exactly when no record has the key. */
  lemma WithKeyEmpty<T(!new), K>(xs: seq<T>, f: T -> K, k: K)
    ensures |WithKey(xs, f, k)| == 0 <==> !HasKey(xs, f, k)
  {
    if HasKey(xs, f, k) {
      var i :| 0 <= i < |xs| && f(xs[i]) == k;
      assert xs[i] in WithKey(xs, f, k);
    }
  }

  /** The first record of `xs` with key `k`, if any. */
  function Find<T(!new), K(==)>(xs: seq<T>, f: T -> K, k: K): (r: Option<T>)
    ensures r.None? <==> !HasKey(xs, f, k)
    ensures r.Some? ==> r.value in xs && f(r.value) == k
  {
    var m := WithKey(xs, f, k);
    WithKeyEmpty(xs, f, k);
    if |m| == 0 then None else Some(m[0])
  }

  /** Under a unique index on `f`, a lookup yields at most one record: exactly `Find`'s. */
  lemma {:induction false} WithKeyUnique<T(!new), K>(xs: seq<T>, f: T -> K, k: K)
    requires Injective(xs, f)
    ensures |WithKey(xs, f, k)| <= 1
    ensures WithKey(xs, f, k) == if HasKey(xs, f, k) then [Find(xs, f, k).value] else []
    decreases |xs|
  {
    if |xs| > 0 {
      assert Injective(xs[1..], f) by {
        forall i, j | 0 <= i < j < |xs[1..]| ensures f(xs[1..][i]) != f(xs[1..][j]) {
          assert xs[1..][i] == xs[i + 1] && xs[1..][j] == xs[j + 1];
        }
      }
      WithKeyUnique(xs[1..], f, k);
    }
  }

  /** Appending a record whose key is new keeps the index unique. */
  lemma InjectiveAppend<T, K>(xs: seq<T>, x: T, f: T -> K)
    requires Injective(xs, f)
    requires !HasKey(xs, f, f(x))
    ensures Injective(xs + [x], f)
  {
    var ys := xs + [x];
    forall i, j | 0 <= i < j < |ys| ensures f(ys[i]) != f(ys[j]) {
      if j == |xs| {
        assert ys[i] == xs[i];
      } else {
        assert ys[i] == xs[i] && ys[j] == xs[j];
      }
    }
  }

  /** A key is present in a concatenation exactly when it is present in one of the parts. */
  lemma HasKeyAppend<T, K>(xs: seq<T>, ys: seq<T>, f: T -> K, k: K)
    ensures HasKey(xs + ys, f, k) <==> HasKey(xs, f, k) || HasKey(ys, f, k)
  {
    var zs := xs + ys;
    if HasKey(xs, f, k) {
      var i :| 0 <= i < |xs| && f(xs[i]) == k;
      assert zs[i] == xs[i];
    }
    if HasKey(ys, f, k) {
      var i :| 0 <= i < |ys| && f(ys[i]) == k;
      assert zs[|xs| + i] == ys[i];
    }
    if HasKey(zs, f, k) {
      var i :| 0 <= i < |zs| && f(zs[i]) == k;
      if i < |xs| {
        assert zs[i] == xs[i];
      } else {
        assert zs[i] == ys[i - |xs|];
      }
    }
  }

  /** Reordering the records does not change which keys are present. */
  lemma HasKeyPerm<T, K>(xs: seq<T>, ys: seq<T>, f: T -> K, k: K)
    requires multiset(xs) == multiset(ys)
    requires HasKey(xs, f, k)
    ensures HasKey(ys, f, k)
  {
    var i :| 0 <= i < |xs| && f(xs[i]) == k;
    assert xs[i] in multiset(ys);
    var j :| 0 <= j < |ys| && ys[j] == xs[i];
  }

  /** A record placed before others with a new key keeps the index unique. */
  lemma InjectiveCons<T, K>(x: T, xs: seq<T>, f: T -> K)
    requires Injective(xs, f)
    requires !HasKey(xs, f, f(x))
    ensures Injective([x] + xs, f)
  {
    var ys := [x] + xs;
    forall i, j | 0 <= i < j < |ys| ensures f(ys[i]) != f(ys[j]) {
      assert ys[j] == xs[j - 1];
      if i > 0 {
        assert ys[i] == xs[i - 1];
      }
    }
  }

  /** Selecting the records with one key keeps another key unique. */
  lemma {:induction false} InjectiveWithKey<T(!new), K, L>(xs: seq<T>, f: T -> K, k: K, g: T -> L)
    requires Injective(xs, g)
    ensures Injective(WithKey(xs, f, k), g)
    decreases |xs|
  {
    if |xs| > 0 {
      assert xs == [xs[0]] + xs[1..];
      InjectiveTail(xs[0], xs[1..], g);
      InjectiveWithKey(xs[1..], f, k, g);
      var rest := WithKey(xs[1..], f, k);
      if f(xs[0]) == k {
        assert !HasKey(rest, g, g(xs[0])) by {
          forall i | 0 <= i < |rest| ensures g(rest[i]) != g(xs[0]) {
            assert rest[i] in xs[1..];
          }
        }
        InjectiveCons(xs[0], rest, g);
      }
    }
  }

  /** The records after the first of a uniquely keyed sequence are uniquely keyed too. */
  lemma InjectiveTail<T, K>(x: T, xs: seq<T>, f: T -> K)
    requires Injective([x] + xs, f)
    ensures Injective(xs, f)
    ensures !HasKey(xs, f, f(x))
  {
    var ys := [x] + xs;
    forall i, j | 0 <= i < j < |xs| ensures f(xs[i]) != f(xs[j]) {
      assert xs[i] == ys[i + 1] && xs[j] == ys[j + 1];
    }
    forall i | 0 <= i < |xs| ensures f(xs[i]) != f(x) {
      assert ys[0] == x && ys[i + 1] == xs[i];
    }
  }

  /** The key of every record, in order. */
  function Keys<T, K>(xs: seq<T>, f: T -> K): (r: seq<K>)
    ensures |r| == |xs|
    ensures forall i :: 0 <= i < |xs| ==> r[i] == f(xs[i])
  {
    seq(|xs|, i requires 0 <= i < |xs| => f(xs[i]))
  }

  /** The largest id of a non-empty collection. */
  function MaxOf(ids: seq<int>): (m: int)
    requires |ids| > 0
    ensures m in ids
    ensures forall i :: 0 <= i < |ids| ==> ids[i] <= m
    decreases |ids|
  {
    if |ids| == 1 then
      ids[0]
    else
      var m := MaxOf(ids[1..]);
      assert forall i :: 1 <= i < |ids| ==> ids[i] == ids[1..][i - 1];
      if ids[0] >= m then ids[0] else m
  }

  /**
    The id for a new record: 1 for an empty collection, otherwise one more
    than the largest existing id.
   */
  function NextId(ids: seq<int>): (r: int)
    ensures |ids| == 0 ==> r == 1
    ensures |ids| > 0 ==> r - 1 in ids
    ensures forall i :: 0 <= i < |ids| ==> ids[i] < r
    ensures r !in ids
  {
    if |ids| == 0 then 1 else MaxOf(ids) + 1
  }

  /** The concatenation of `f(x)` over `xs`, in order: a `$lookup` followed by an `$unwind`. */
  function FlatMap<A, B>(xs: seq<A>, f: A -> seq<B>): seq<B>
    decreases |xs|
  {
    if |xs| == 0 then [] else f(xs[0]) + FlatMap(xs[1..], f)
  }

  lemma {:induction false} FlatMapMember<A, B>(xs: seq<A>, f: A -> seq<B>, y: B)
    ensures y in FlatMap(xs, f) <==> exists x :: x in xs && y in f(x)
    decreases |xs|
  {
    if |xs| > 0 {
      FlatMapMember(xs[1..], f, y);
      assert xs == [xs[0]] + xs[1..];
    }
  }

  /** Selecting by key distributes over concatenation. */
  lemma {:induction false} WithKeyAppend<T(!new), K>(xs: seq<T>, ys: seq<T>, f: T -> K, k: K)
    ensures WithKey(xs + ys, f, k) == WithKey(xs, f, k) + WithKey(ys, f, k)
    decreases |xs|
  {
    if |xs| > 0 {
      assert (xs + ys)[1..] == xs[1..] + ys;
      WithKeyAppend(xs[1..], ys, f, k);
    } else {
      assert xs + ys == ys;
    }
  }

  /** When every element carries key `k` the selection keeps them all, in order. */
  lemma {:induction false} WithKeyAll<T(!new), K>(xs: seq<T>, f: T -> K, k: K)
    requires forall i :: 0 <= i < |xs| ==> f(xs[i]) == k
    ensures WithKey(xs, f, k) == xs
    decreases |xs|
  {
    if |xs| > 0 {
      WithKeyAll(xs[1..], f, k);
    }
  }

  /** Under a unique index, looking up the key of a stored record yields that record alone. */
  lemma WithKeyOne<T(!new), K>(xs: seq<T>, f: T -> K, i: nat)
    requires Injective(xs, f) && i < |xs|
    ensures WithKey(xs, f, f(xs[i])) == [xs[i]]
  {
    WithKeyUnique(xs, f, f(xs[i]));
    assert xs[i] in WithKey(xs, f, f(xs[i]));
  }

  lemma FlatMapAppend<A, B>(xs: seq<A>, ys: seq<A>, f: A -> seq<B>)
    ensures FlatMap(xs + ys, f) == FlatMap(xs, f) + FlatMap(ys, f)
    decreases |xs|
  {
    if |xs| > 0 {
      assert (xs + ys)[1..] == xs[1..] + ys;
      FlatMapAppend(xs[1..], ys, f);
    } else {
      assert xs + ys == ys;
    }
  }

  lemma FlatMapOne<A, B>(x: A, f: A -> seq<B>)
    ensures FlatMap([x], f) == f(x)
  {
    assert [x][1..] == [];
  }

  /** Selecting by key from two records. */
  lemma WithKeyPair<T(!new), K>(a: T, b: T, f: T -> K, k: K)
    ensures WithKey([a, b], f, k) == (if f(a) == k then [a] else []) + (if f(b) == k then [b] else [])
  {
    assert [a, b][1..] == [b];
    assert [b][1..] == [];
  }

  /** When no element carries key `k` the selection is empty. */
  lemma WithKeyNone<T(!new), K>(xs: seq<T>, f: T -> K, k: K)
    requires forall i :: 0 <= i < |xs| ==> f(xs[i]) != k
    ensures WithKey(xs, f, k) == []
  {
  }

  // ----- Sums -----

  /** The sum of `f` over a sequence. */
  function SumOf<T>(xs: seq<T>, f: T -> int): int
  {
    if |xs| == 0 then 0 else f(xs[0]) + SumOf(xs[1..], f)
  }

  lemma {:induction false} SumOfAppend<T>(xs: seq<T>, ys: seq<T>, f: T -> int)
    ensures SumOf(xs + ys, f) == SumOf(xs, f) + SumOf(ys, f)
    decreases |xs|
  {
    if |xs| > 0 {
      assert (xs + ys)[1..] == xs[1..] + ys;
      SumOfAppend(xs[1..], ys, f);
    } else {
      assert xs + ys == ys;
    }
  }

  /** A sum of zeros is zero. */
  lemma {:induction false} SumOfZero<T>(xs: seq<T>, f: T -> int)
    requires forall x :: f(x) == 0
    ensures SumOf(xs, f) == 0
    decreases |xs|
  {
    if |xs| > 0 {
      SumOfZero(xs[1..], f);
    }
  }

  /** Summing over a flattened sequence adds up the sums over its parts. */
  lemma {:induction false} SumOfFlatMap<A, B>(xs: seq<A>, f: A -> seq<B>, w: B -> int, h: A -> int)
    requires forall x :: h(x) == SumOf(f(x), w)
    ensures SumOf(FlatMap(xs, f), w) == SumOf(xs, h)
    decreases |xs|
  {
    if |xs| > 0 {
      SumOfFlatMap(xs[1..], f, w, h);
      SumOfAppend(f(xs[0]), FlatMap(xs[1..], f), w);
    }
  }

  /** Summing over the records with key `k` is summing, over all records, a function that is 0 off that key. */
  lemma {:induction false} SumOfWithKey<T(!new), K>(xs: seq<T>, key: T -> K, k: K, h: T -> int, g: T -> int)
    requires forall x :: g(x) == if key(x) == k then h(x) else 0
    ensures SumOf(WithKey(xs, key, k), h) == SumOf(xs, g)
    decreases |xs|
  {
    if |xs| > 0 {
      SumOfWithKey(xs[1..], key, k, h, g);
      var rest := WithKey(xs[1..], key, k);
      if key(xs[0]) == k {
        assert ([xs[0]] + rest)[1..] == rest;
      }
    }
  }

  /** Under a unique index, a sum that is 0 off key `k` is its value at the one record with that key, if any. */
  lemma SumOfUnique<T(!new), K>(xs: seq<T>, key: T -> K, k: K, g: T -> int)
    requires Injective(xs, key)
    requires forall x :: key(x) != k ==> g(x) == 0
    ensures SumOf(xs, g) == if HasKey(xs, key, k) then g(Find(xs, key, k).value) else 0
  {
    SumOfWithKey(xs, key, k, g, g);
    WithKeyUnique(xs, key, k);
  }

  /** The sum of row `x` of the table `g` over the columns `ys`. */
  function RowSum<A, B>(x: A, ys: seq<B>, g: (A, B) -> int): int
  {
    if |ys| == 0 then 0 else g(x, ys[0]) + RowSum(x, ys[1..], g)
  }

  /** The sum of column `y` of the table `g` over the rows `xs`. */
  function ColSum<A, B>(xs: seq<A>, y: B, g: (A, B) -> int): int
  {
    if |xs| == 0 then 0 else g(xs[0], y) + ColSum(xs[1..], y, g)
  }

  lemma {:induction false} RowSumIs<A, B>(x: A, ys: seq<B>, g: (A, B) -> int, h: B -> int)
    requires forall y :: h(y) == g(x, y)
    ensures RowSum(x, ys, g) == SumOf(ys, h)
    decreases |ys|
  {
    if |ys| > 0 {
      RowSumIs(x, ys[1..], g, h);
    }
  }

  lemma {:induction false} ColSumIs<A, B>(xs: seq<A>, y: B, g: (A, B) -> int, h: A -> int)
    requires forall x :: h(x) == g(x, y)
    ensures ColSum(xs, y, g) == SumOf(xs, h)
    decreases |xs|
  {
    if |xs| > 0 {
      ColSumIs(xs[1..], y, g, h);
    }
  }

  lemma {:induction false} SumOfSplitRow<A, B>(x: A, ys: seq<B>, g: (A, B) -> int, c: B -> int, c2: B -> int)
    requires forall y :: c(y) == g(x, y) + c2(y)
    ensures SumOf(ys, c) == RowSum(x, ys, g) + SumOf(ys, c2)
    decreases |ys|
  {
    if |ys| > 0 {
      SumOfSplitRow(x, ys[1..], g, c, c2);
    }
  }

  /** Adding up a table row by row or column by column gives the same total. */
  lemma {:induction false} SumOfSwap<A, B>(xs: seq<A>, ys: seq<B>, g: (A, B) -> int, r: A -> int, c: B -> int)
    requires forall x :: r(x) == RowSum(x, ys, g)
    requires forall y :: c(y) == ColSum(xs, y, g)
    ensures SumOf(xs, r) == SumOf(ys, c)
    decreases |xs|
  {
    if |xs| == 0 {
      SumOfZero(ys, c);
    } else {
      var tail := xs[1..];
      var c2 := (y: B) => ColSum(tail, y, g);
      SumOfSwap(tail, ys, g, r, c2);
      SumOfSplitRow(xs[0], ys, g, c, c2);
    }
  }
}
