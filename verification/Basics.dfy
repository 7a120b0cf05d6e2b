// Small wrappers shared by the other modules.
module Basics {
  datatype Option<+T> = None | Some(value: T)

  datatype Result<+T> = Ok(value: T) | Err(error: string)

  // Go's uint64, the type of log indices.
  const UINT64_LIMIT: nat := 0x1_0000_0000_0000_0000
  type uint64 = n: nat | n < 0x1_0000_0000_0000_0000

  // The non-negative half of Go's int64, the type of timestamps.
  const INT64_LIMIT: nat := 0x8000_0000_0000_0000

  function Last<T>(s: seq<T>): (x: T)
    requires s != []
  {
    s[|s| - 1]
  }

  function Front<T>(s: seq<T>): (r: seq<T>)
    requires s != []
  {
    s[..|s| - 1]
  }

  lemma FrontLast<T>(s: seq<T>)
    requires s != []
    ensures s == Front(s) + [Last(s)]
  {
  }

  lemma ConcatAssociative<T>(a: seq<T>, b: seq<T>, c: seq<T>)
    ensures (a + b) + c == a + (b + c)
  {
  }

  lemma SuffixOfConcat<T>(a: seq<T>, b: seq<T>, k: nat)
    requires k <= |a|
    ensures (a + b)[k..] == a[k..] + b
  {
  }

  lemma SnocEqual<T>(a: seq<T>, x: T, b: seq<T>, y: T)
    requires |a| == |b|
    ensures a + [x] == b + [y] <==> a == b && x == y
  {
    assert Front(a + [x]) == a && Last(a + [x]) == x;
    assert Front(b + [y]) == b && Last(b + [y]) == y;
  }

  function Without<K, V>(m: map<K, V>, k: K): (r: map<K, V>) {
    m - {k}
  }

  lemma MapExtensionality<K, V>(m1: map<K, V>, m2: map<K, V>)
    requires m1.Keys == m2.Keys
    requires forall k :: k in m1 ==> m1[k] == m2[k]
    ensures m1 == m2
  {
  }
}
