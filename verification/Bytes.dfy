/** Bytes, little-endian fields, and the pieces a byte stream arrives in. */
module Bytes {
  type byte = x: int | 0 <= x < 256

  const U16_LIMIT := 0x1_0000
  const U32_LIMIT := 0x1_0000_0000
  const MAX_SAFE_INTEGER: nat := 0x1F_FFFF_FFFF_FFFF

  /** The two low-order bytes of `n`, least significant first. */
  function Le16(n: nat): (b: seq<byte>)
    ensures |b| == 2
  {
    [n % 256, n / 256 % 256]
  }

  /** The four low-order bytes of `n`, least significant first: a value past 32 bits is truncated. */
  function Le32(n: nat): (b: seq<byte>)
    ensures |b| == 4
  {
    [n % 256, n / 256 % 256, n / 0x1_0000 % 256, n / 0x100_0000 % 256]
  }

  function FromLe16(b: seq<byte>): nat
    requires |b| == 2
  {
    b[0] as int + 256 * (b[1] as int)
  }

  function FromLe32(b: seq<byte>): nat
    requires |b| == 4
  {
    b[0] as int + 256 * (b[1] as int) + 0x1_0000 * (b[2] as int) + 0x100_0000 * (b[3] as int)
  }

  lemma Le16RoundTrip(n: nat)
    requires n < U16_LIMIT
    ensures FromLe16(Le16(n)) == n
  {
  }

  lemma Le32RoundTrip(n: nat)
    ensures FromLe32(Le32(n)) == n % U32_LIMIT
  {
    var a, b, c := n / 256, n / 0x1_0000, n / 0x100_0000;
    assert b == a / 256 && c == b / 256;
  }

  lemma Le32Exact(n: nat)
    requires n < U32_LIMIT
    ensures FromLe32(Le32(n)) == n
  {
    Le32RoundTrip(n);
  }

  /** Everything the pieces carry, in order. */
  function Flatten<T>(pieces: seq<seq<T>>): seq<T> {
    if pieces == [] then [] else pieces[0] + Flatten(pieces[1..])
  }

  lemma FlattenConcat<T>(a: seq<seq<T>>, b: seq<seq<T>>)
    ensures Flatten(a + b) == Flatten(a) + Flatten(b)
  {
    if a == [] {
      assert a + b == b;
    } else {
      assert (a + b)[0] == a[0] && (a + b)[1..] == a[1..] + b;
      FlattenConcat(a[1..], b);
    }
  }

  lemma FlattenSnoc<T>(a: seq<seq<T>>, last: seq<T>)
    ensures Flatten(a + [last]) == Flatten(a) + last
  {
    FlattenConcat(a, [last]);
    assert Flatten([last]) == last + Flatten<T>([]);
  }

  lemma FlattenPrefix<T>(a: seq<seq<T>>, b: seq<seq<T>>)
    requires a <= b
    ensures Flatten(a) <= Flatten(b)
  {
    FlattenConcat(a, b[|a|..]);
    assert a + b[|a|..] == b;
  }
}
