/** Base64url without padding (RFC 4648, section 5), as keys, salts and hashes travel. */
module Base64Url {
  import opened Wrappers
  import opened Bytes

  type Sextet = n: nat | n < 64

  function SextetOf(c: char): Option<Sextet> {
    if 'A' <= c <= 'Z' then Some(c as int - 'A' as int)
    else if 'a' <= c <= 'z' then Some(c as int - 'a' as int + 26)
    else if '0' <= c <= '9' then Some(c as int - '0' as int + 52)
    else if c == '-' then Some(62)
    else if c == '_' then Some(63)
    else None
  }

  function CharOf(n: Sextet): (c: char)
    ensures SextetOf(c) == Some(n)
  {
    if n < 26 then ('A' as int + n) as char
    else if n < 52 then ('a' as int + n - 26) as char
    else if n < 62 then ('0' as int + n - 52) as char
    else if n == 62 then '-'
    else '_'
  }

  /** Table 2 of RFC 4648: capital letters, small letters, digits, minus and underline, in this order; nothing else. */
  lemma AlphabetIsTheTable(c: char, n: Sextet)
    ensures SextetOf(c) == Some(n)
            <==> || ('A' <= c <= 'Z' && n == c as int - 'A' as int) || ('a' <= c <= 'z' && n == 26 + (c as int - 'a' as int))
                 || ('0' <= c <= '9' && n == 52 + (c as int - '0' as int)) || (c == '-' && n == 62) || (c == '_' && n == 63)
    ensures CharOf(n) == c <==> SextetOf(c) == Some(n)
  {
  }

  // ---------- three bytes are four sextets ----------

  function Sextet1(x: byte): Sextet { x / 4 }
  function Sextet2(x: byte, y: byte): Sextet { x % 4 * 16 + y / 16 }
  function Sextet3(y: byte, z: byte): Sextet { y % 16 * 4 + z / 64 }
  function Sextet4(z: byte): Sextet { z % 64 }

  function Byte1(a: Sextet, b: Sextet): byte { a * 4 + b / 16 }
  function Byte2(b: Sextet, c: Sextet): byte { b % 16 * 16 + c / 4 }
  function Byte3(c: Sextet, d: Sextet): byte { c % 4 * 64 + d }

  lemma BytesBack(x: byte, y: byte, z: byte)
    ensures Byte1(Sextet1(x), Sextet2(x, y)) == x
    ensures Byte2(Sextet2(x, y), Sextet3(y, z)) == y
    ensures Byte3(Sextet3(y, z), Sextet4(z)) == z
  {
  }

  // ---------- texts ----------

  function Encode(b: seq<byte>): string
    decreases |b|
  {
    if b == [] then ""
    else if |b| == 1 then [CharOf(Sextet1(b[0])), CharOf(Sextet2(b[0], 0))]
    else if |b| == 2 then [CharOf(Sextet1(b[0])), CharOf(Sextet2(b[0], b[1])), CharOf(Sextet3(b[1], 0))]
    else
      [CharOf(Sextet1(b[0])), CharOf(Sextet2(b[0], b[1])), CharOf(Sextet3(b[1], b[2])), CharOf(Sextet4(b[2]))] + Encode(b[3..])
  }

  predicate InAlphabet(text: string) {
    forall i :: 0 <= i < |text| ==> SextetOf(text[i]).Some?
  }

  /** The decoder of the platform: bits left over at the end are dropped, a single character left over is an error. */
  function Decode(text: string): Option<seq<byte>>
    decreases |text|
  {
    if text == "" then Some([])
    else if |text| == 1 || SextetOf(text[0]).None? || SextetOf(text[1]).None? then None
    else
      var a, b := SextetOf(text[0]).value, SextetOf(text[1]).value;
      if |text| == 2 then Some([Byte1(a, b)])
      else if SextetOf(text[2]).None? then None
      else
        var c := SextetOf(text[2]).value;
        if |text| == 3 then Some([Byte1(a, b), Byte2(b, c)])
        else
          var d, rest := SextetOf(text[3]), Decode(text[4..]);
          if d.None? || rest.None? then None else Some([Byte1(a, b), Byte2(b, c), Byte3(c, d.value)] + rest.value)
  }

  lemma {:induction false} DecodeInvertsEncode(b: seq<byte>)
    ensures Decode(Encode(b)) == Some(b)
    decreases |b|
  {
    hide SextetOf, CharOf, Sextet1, Sextet2, Sextet3, Sextet4, Byte1, Byte2, Byte3;
    if |b| == 1 {
      BytesBack(b[0], 0, 0);
      assert b == [b[0]];
    } else if |b| == 2 {
      BytesBack(b[0], b[1], 0);
      assert b == [b[0], b[1]];
    } else if |b| >= 3 {
      DecodeInvertsEncode(b[3..]);
      BytesBack(b[0], b[1], b[2]);
      assert Encode(b)[4..] == Encode(b[3..]);
      assert b == [b[0], b[1], b[2]] + b[3..];
    }
  }

  lemma {:induction false} EncodedIs(b: seq<byte>)
    ensures |Encode(b)| == (4 * |b| + 2) / 3 && InAlphabet(Encode(b))
    decreases |b|
  {
    hide SextetOf, CharOf, Sextet1, Sextet2, Sextet3, Sextet4;
    if |b| >= 3 {
      EncodedIs(b[3..]);
      assert Encode(b)[4..] == Encode(b[3..]);
    }
  }

  /** A text decodes, to three bytes for four characters, exactly if it is in the alphabet and no single one is left over. */
  lemma {:induction false} DecodesExactly(text: string)
    ensures Decode(text).Some? <==> InAlphabet(text) && |text| % 4 != 1
    ensures Decode(text).Some? ==> |Decode(text).value| == 3 * |text| / 4
    decreases |text|
  {
    hide SextetOf, Byte1, Byte2, Byte3;
    if |text| >= 4 {
      DecodesExactly(text[4..]);
      assert text == text[..4] + text[4..];
    }
  }
}
