/**
  The order in which the document store sorts values.

  Sort keys are restricted to the three kinds of value the queries sort on:
  null, integers and strings. As in BSON comparison order, null sorts below
  every number and numbers sort below every string. Strings are compared by
  code point, the byte order of their UTF-8 encoding; no collation is applied.
 */
module Ordering {
  import opened Wrappers

  /** One component of a sort key. */
  datatype Key = Null | Num(n: int) | Str(s: string)

  /** A nullable string field as a sort key. */
  function OptStr(v: Option<string>): (k: Key)
    ensures k.Null? <==> v.None?
    ensures v.Some? ==> k == Str(v.value)
  {
    match v
    case None => Null
    case Some(text) => Str(text)
  }

  /** Lexicographic order on strings, by code point. */
  predicate StrLe(a: string, b: string)
    decreases |a|
  {
    |a| == 0 || (|b| > 0 && (a[0] < b[0] || (a[0] == b[0] && StrLe(a[1..], b[1..]))))
  }

  /** Rank of the kind of a key: null, then numbers, then strings. */
  function Rank(k: Key): nat
  {
    match k
    case Null => 0
    case Num(_) => 1
    case Str(_) => 2
  }

  /** Order on single keys. */
  predicate KeyLe(a: Key, b: Key)
  {
    Rank(a) < Rank(b)
    || (a.Null? && b.Null?)
    || (a.Num? && b.Num? && a.n <= b.n)
    || (a.Str? && b.Str? && StrLe(a.s, b.s))
  }

  /** Order on compound keys: component by component, a prefix first. */
  predicate KeysLe(a: seq<Key>, b: seq<Key>)
    decreases |a|
  {
    |a| == 0 || (|b| > 0 && ((KeyLe(a[0], b[0]) && a[0] != b[0]) || (a[0] == b[0] && KeysLe(a[1..], b[1..]))))
  }

  lemma {:induction false} StrLeRefl(a: string)
    ensures StrLe(a, a)
    decreases |a|
  {
    if |a| > 0 {
      StrLeRefl(a[1..]);
    }
  }

  lemma {:induction false} StrLeTotal(a: string, b: string)
    ensures StrLe(a, b) || StrLe(b, a)
    decreases |a|
  {
    if |a| > 0 && |b| > 0 && a[0] == b[0] {
      StrLeTotal(a[1..], b[1..]);
    }
  }

  lemma {:induction false} StrLeTrans(a: string, b: string, c: string)
    requires StrLe(a, b) && StrLe(b, c)
    ensures StrLe(a, c)
    decreases |a|
  {
    if |a| > 0 && a[0] == b[0] && b[0] == c[0] {
      StrLeTrans(a[1..], b[1..], c[1..]);
    }
  }

  lemma {:induction false} StrLeAntisym(a: string, b: string)
    requires StrLe(a, b) && StrLe(b, a)
    ensures a == b
    decreases |a|
  {
    if |a| > 0 {
      StrLeAntisym(a[1..], b[1..]);
      assert a == [a[0]] + a[1..];
      assert b == [b[0]] + b[1..];
    }
  }

  lemma KeyLeRefl(a: Key)
    ensures KeyLe(a, a)
  {
    if a.Str? {
      StrLeRefl(a.s);
    }
  }

  lemma KeyLeTotal(a: Key, b: Key)
    ensures KeyLe(a, b) || KeyLe(b, a)
  {
    if a.Str? && b.Str? {
      StrLeTotal(a.s, b.s);
    }
  }

  lemma KeyLeTrans(a: Key, b: Key, c: Key)
    requires KeyLe(a, b) && KeyLe(b, c)
    ensures KeyLe(a, c)
  {
    if a.Str? && b.Str? && c.Str? {
      StrLeTrans(a.s, b.s, c.s);
    }
  }

  lemma KeyLeAntisym(a: Key, b: Key)
    requires KeyLe(a, b) && KeyLe(b, a)
    ensures a == b
  {
    if a.Str? && b.Str? {
      StrLeAntisym(a.s, b.s);
    }
  }

  /** Any two compound keys are comparable. */
  lemma {:induction false} KeysLeTotal(a: seq<Key>, b: seq<Key>)
    ensures KeysLe(a, b) || KeysLe(b, a)
    decreases |a|
  {
    if |a| > 0 && |b| > 0 {
      KeyLeTotal(a[0], b[0]);
      if a[0] == b[0] {
        KeysLeTotal(a[1..], b[1..]);
      }
    }
  }

  /** The order on compound keys is transitive. */
  lemma {:induction false} KeysLeTrans(a: seq<Key>, b: seq<Key>, c: seq<Key>)
    requires KeysLe(a, b) && KeysLe(b, c)
    ensures KeysLe(a, c)
    decreases |a|
  {
    if |a| > 0 {
      if a[0] == b[0] && b[0] == c[0] {
        KeysLeTrans(a[1..], b[1..], c[1..]);
      } else {
        KeyLeRefl(a[0]);
        KeyLeRefl(b[0]);
        KeyLeTrans(a[0], b[0], c[0]);
        if a[0] == c[0] {
          KeyLeAntisym(a[0], b[0]);
        }
      }
    }
  }
}
