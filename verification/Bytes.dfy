/** Bytes, little-endian fields and concatenation: the vocabulary every other module shares. */
module Bytes {

  type byte = x: int | 0 <= x < 0x100
  type u16 = x: int | 0 <= x < 0x1_0000
  type u32 = x: int | 0 <= x < 0x1_0000_0000

  datatype Option<+T> = None | Some(value: T)

  function Min(a: int, b: int): int {
    if a < b then a else b
  }

  function Zeros(n: nat): (z: seq<byte>)
    ensures |z| == n
  {
    seq(n, _ => 0)
  }

  function Le16(n: u16): (s: seq<byte>)
    ensures |s| == 2
  {
    [n % 0x100, n / 0x100]
  }

  function FromLe16(s: seq<byte>): u16
    requires |s| == 2
  {
    var lo: int, hi: int := s[0], s[1];
    lo + 0x100 * hi
  }

  lemma Le16RoundTrip(n: u16)
    ensures FromLe16(Le16(n)) == n
  {
  }

  function Le32(n: u32): (s: seq<byte>)
    ensures |s| == 4
  {
    Le16(n % 0x1_0000) + Le16(n / 0x1_0000)
  }

  function FromLe32(s: seq<byte>): u32
    requires |s| == 4
  {
    var lo: int, hi: int := FromLe16(s[..2]), FromLe16(s[2..]);
    lo + 0x1_0000 * hi
  }

  lemma Le32RoundTrip(n: u32)
    ensures FromLe32(Le32(n)) == n
  {
    assert Le32(n)[..2] == Le16(n % 0x1_0000) && Le32(n)[2..] == Le16(n / 0x1_0000);
  }

  /** All the pieces, one after the other. */
  function Flatten<T>(ss: seq<seq<T>>): seq<T> {
    if ss == [] then [] else ss[0] + Flatten(ss[1..])
  }

  lemma Regrouped<T>(a: seq<T>, b: seq<T>, c: seq<T>)
    ensures a + (b + c) == (a + b) + c
  {
  }

  lemma {:induction false} FlattenConcat<T>(a: seq<seq<T>>, b: seq<seq<T>>)
    ensures Flatten(a + b) == Flatten(a) + Flatten(b)
  {
    if a == [] {
      assert a + b == b;
    } else {
      FlattenConcat(a[1..], b);
      assert (a + b)[0] == a[0] && (a + b)[1..] == a[1..] + b;
      Regrouped(a[0], Flatten(a[1..]), Flatten(b));
    }
  }

  lemma FlattenSnoc<T>(a: seq<seq<T>>, x: seq<T>)
    ensures Flatten(a + [x]) == Flatten(a) + x
  {
    FlattenConcat(a, [x]);
    assert Flatten([x]) == x + Flatten([][..]) == x;
  }

  /** Index of the first NUL at or after p, or |s|. */
  function NulAt(s: seq<byte>, p: nat): (n: nat)
    requires p <= |s|
    ensures p <= n <= |s|
    decreases |s| - p
  {
    if p == |s| || s[p] == 0 then p else NulAt(s, p + 1)
  }

  lemma {:induction false} NulAtIsFirst(s: seq<byte>, p: nat)
    requires p <= |s|
    ensures var n := NulAt(s, p);
            (n < |s| ==> s[n] == 0) && forall i :: p <= i < n ==> s[i] != 0
    decreases |s| - p
  {
    if p < |s| && s[p] != 0 {
      NulAtIsFirst(s, p + 1);
    }
  }

  lemma NulFound(s: seq<byte>, p: nat, n: nat)
    requires p <= n < |s| && s[n] == 0 && forall i :: p <= i < n ==> s[i] != 0
    ensures NulAt(s, p) == n
  {
    NulAtIsFirst(s, p);
  }

  ghost predicate NoNul(s: seq<byte>) {
    forall i :: 0 <= i < |s| ==> s[i] != 0
  }
}
