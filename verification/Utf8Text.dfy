/** UTF-8 (RFC 3629, sections 3 and 4) against the text encoder of the browser, whose strings are UTF-16 code units. */
module Utf8Text {
  import opened Wrappers
  import opened Bytes
  import opened ArchivePaths

  predicate IsHigh(u: Unit) {
    0xd800 <= u < 0xdc00
  }

  predicate IsLow(u: Unit) {
    0xdc00 <= u < 0xe000
  }

  predicate StartsWithPair(s: JsString) {
    |s| > 1 && IsHigh(s[0]) && IsLow(s[1])
  }

  function Sequence(code: nat): (b: seq<byte>)
    requires code < 0x11_0000
    ensures 1 <= |b| <= if code < 0x1_0000 then 3 else 4
  {
    if code < 0x80 then [code]
    else if code < 0x800 then [0xc0 + code / 0x40, 0x80 + code % 0x40]
    else if code < 0x1_0000 then [0xe0 + code / 0x1000, 0x80 + code / 0x40 % 0x40, 0x80 + code % 0x40]
    else [0xf0 + code / 0x4_0000, 0x80 + code / 0x1000 % 0x40, 0x80 + code / 0x40 % 0x40, 0x80 + code % 0x40]
  }

  /** What the text encoder makes of a string; an unpaired surrogate becomes U+FFFD. */
  function Utf8(s: JsString): (b: seq<byte>)
    ensures |b| <= 3 * |s|
  {
    if s == [] then []
    else if StartsWithPair(s) then Sequence(0x1_0000 + (s[0] as int - 0xd800) * 0x400 + (s[1] as int - 0xdc00)) + Utf8(s[2..])
    else if IsHigh(s[0]) || IsLow(s[0]) then Sequence(0xfffd) + Utf8(s[1..])
    else Sequence(s[0]) + Utf8(s[1..])
  }

  // ---------- the decoder of the standard ----------

  /** How many bytes a lead byte announces; none for a continuation byte or a byte UTF-8 never uses. */
  function SequenceLength(lead: byte): nat {
    if lead < 0x80 then 1 else if lead < 0xc0 then 0 else if lead < 0xe0 then 2 else if lead < 0xf0 then 3
    else if lead < 0xf8 then 4 else 0
  }

  predicate IsContinuation(b: byte) {
    0x80 <= b < 0xc0
  }

  /** The low-order bits of a byte, below `unit`. */
  function Low(b: byte, unit: nat): nat
    requires unit > 0
  {
    b % unit
  }

  /** The bits of a sequence, most significant first: those of the lead byte and six of every continuation byte. */
  function CodePoint(b: seq<byte>): nat
    requires 1 <= |b| <= 4
  {
    if |b| == 1 then b[0]
    else if |b| == 2 then 0x40 * Low(b[0], 0x20) + Low(b[1], 0x40)
    else if |b| == 3 then 0x1000 * Low(b[0], 0x10) + 0x40 * Low(b[1], 0x40) + Low(b[2], 0x40)
    else 0x4_0000 * Low(b[0], 0x08) + 0x1000 * Low(b[1], 0x40) + 0x40 * Low(b[2], 0x40) + Low(b[3], 0x40)
  }

  /** A scalar value in its shortest form: neither overlong, nor a surrogate, nor beyond U+10FFFF. */
  predicate InRange(code: nat, length: nat) {
    match length
    case 1 => code < 0x80
    case 2 => 0x80 <= code < 0x800
    case 3 => 0x800 <= code < 0xd800 || 0xe000 <= code < 0x1_0000
    case 4 => 0x1_0000 <= code < 0x11_0000
    case _ => false
  }

  /** UTF-16, section 2.1 of RFC 2781. */
  function Units(code: nat): JsString
    requires code < 0x11_0000
  {
    if code < 0x1_0000 then [code] else [0xd800 + (code - 0x1_0000) / 0x400, 0xdc00 + (code - 0x1_0000) % 0x400]
  }

  predicate StartsWithSequence(b: seq<byte>) {
    && b != [] && var n := SequenceLength(b[0]);
    && 1 <= n <= |b| && (forall i :: 1 <= i < n ==> IsContinuation(b[i])) && InRange(CodePoint(b[..n]), n)
  }

  function DecodeUtf8(b: seq<byte>): Option<JsString>
    decreases |b|
  {
    if b == [] then Some([])
    else if !StartsWithSequence(b) then None
    else
      var n := SequenceLength(b[0]);
      var rest := DecodeUtf8(b[n..]);
      if rest.None? then None else Some(Units(CodePoint(b[..n])) + rest.value)
  }

  // ---------- unpaired surrogates ----------

  predicate Unpaired(s: JsString, i: nat)
    requires i < |s|
  {
    || (IsHigh(s[i]) && (i + 1 == |s| || !IsLow(s[i + 1])))
    || (IsLow(s[i]) && (i == 0 || !IsHigh(s[i - 1])))
  }

  /** The string with U+FFFD for every unpaired surrogate. */
  function Mended(s: JsString): JsString {
    seq(|s|, i requires 0 <= i < |s| => if Unpaired(s, i) then 0xfffd else s[i])
  }

  predicate WellFormed(s: JsString) {
    forall i :: 0 <= i < |s| ==> !Unpaired(s, i)
  }

  // ---------- the encoder undone ----------

  lemma SequenceDecodes(head: seq<byte>, rest: seq<byte>)
    requires 1 <= |head| <= 4 && SequenceLength(head[0]) == |head| && InRange(CodePoint(head), |head|)
    requires forall i :: 1 <= i < |head| ==> IsContinuation(head[i])
    ensures DecodeUtf8(head + rest)
         == if DecodeUtf8(rest).Some? then Some(Units(CodePoint(head)) + DecodeUtf8(rest).value) else None
  {
    var b := head + rest;
    assert b[..|head|] == head && b[|head|..] == rest && b[0] == head[0];
    assert forall i :: 1 <= i < |head| ==> b[i] == head[i];
    hide CodePoint, Units, SequenceLength;
  }

  lemma Digits(code: nat)
    ensures code / 0x40 == 0x40 * (code / 0x1000) + code / 0x40 % 0x40
    ensures code / 0x1000 == 0x40 * (code / 0x4_0000) + code / 0x1000 % 0x40
    ensures code == 0x40 * (code / 0x40) + code % 0x40
  {
  }

  predicate IsSequenceOf(b: seq<byte>, code: nat) {
    && 1 <= |b| <= 4 && SequenceLength(b[0]) == |b| && InRange(code, |b|) && CodePoint(b) == code
    && forall i :: 1 <= i < |b| ==> IsContinuation(b[i])
  }

  /** The shortest form, and its bits. */
  lemma SequenceIs(code: nat)
    requires code < 0xd800 || 0xe000 <= code < 0x11_0000
    ensures IsSequenceOf(Sequence(code), code)
  {
    if code < 0x800 {
      Digits(code);
    } else if code < 0x1_0000 {
      ThreeByteSequence(code);
    } else {
      FourByteSequence(code);
    }
    hide Sequence, IsSequenceOf;
  }

  lemma ThreeByteSequence(code: nat)
    requires 0x800 <= code < 0xd800 || 0xe000 <= code < 0x1_0000
    ensures IsSequenceOf(Sequence(code), code)
  {
    hide CodePoint, SequenceLength, IsContinuation;
    Digits(code);
    ThreeBytes(code / 0x1000, code / 0x40 % 0x40, code % 0x40);
  }

  lemma FourByteSequence(code: nat)
    requires 0x1_0000 <= code < 0x11_0000
    ensures IsSequenceOf(Sequence(code), code)
  {
    hide CodePoint, SequenceLength, IsContinuation;
    Digits(code);
    FourBytes(code / 0x4_0000, code / 0x1000 % 0x40, code / 0x40 % 0x40, code % 0x40);
  }

  lemma ThreeBytes(x: nat, y: nat, z: nat)
    requires x < 0x10 && y < 0x40 && z < 0x40
    ensures var b: seq<byte> := [0xe0 + x, 0x80 + y, 0x80 + z];
            && CodePoint(b) == 0x1000 * x + 0x40 * y + z
            && SequenceLength(b[0]) == 3 && forall i :: 1 <= i < 3 ==> IsContinuation(b[i])
  {
  }

  lemma FourBytes(x: nat, y: nat, z: nat, w: nat)
    requires x < 8 && y < 0x40 && z < 0x40 && w < 0x40
    ensures var b: seq<byte> := [0xf0 + x, 0x80 + y, 0x80 + z, 0x80 + w];
            && CodePoint(b) == 0x4_0000 * x + 0x1000 * y + 0x40 * z + w
            && SequenceLength(b[0]) == 4 && forall i :: 1 <= i < 4 ==> IsContinuation(b[i])
  {
  }

  /** What `head` in front of a text's encoding decodes to. */
  function Behind(head: JsString, rest: seq<byte>): Option<JsString> {
    if DecodeUtf8(rest).Some? then Some(head + DecodeUtf8(rest).value) else None
  }

  function Shown(u: Unit): Unit {
    if IsHigh(u) || IsLow(u) then 0xfffd else u
  }

  lemma UnitDecodes(t: JsString)
    requires t != [] && !StartsWithPair(t)
    ensures DecodeUtf8(Utf8(t)) == Behind([Shown(t[0])], Utf8(t[1..]))
  {
    hide CodePoint, SequenceLength, InRange, DecodeUtf8, IsContinuation, Sequence;
    SequenceIs(Shown(t[0]));
    SequenceDecodes(Sequence(Shown(t[0])), Utf8(t[1..]));
  }

  lemma PairDecodes(t: JsString)
    requires StartsWithPair(t)
    ensures DecodeUtf8(Utf8(t)) == Behind(t[..2], Utf8(t[2..]))
  {
    hide CodePoint, SequenceLength, InRange, DecodeUtf8, IsContinuation, Sequence;
    var code: nat := 0x1_0000 + (t[0] as int - 0xd800) * 0x400 + (t[1] as int - 0xdc00);
    SequenceIs(code);
    SequenceDecodes(Sequence(code), Utf8(t[2..]));
    assert Units(code) == t[..2];
  }

  lemma {:induction false} DecodesFrom(s: JsString, k: nat)
    requires k <= |s| && !(0 < k < |s| && IsHigh(s[k - 1]) && IsLow(s[k]))
    ensures DecodeUtf8(Utf8(s[k..])) == Some(Mended(s)[k..])
    decreases |s| - k
  {
    hide Utf8, DecodeUtf8;
    var t := s[k..];
    if t == [] {
      NothingDecodes();
      assert Mended(s)[k..] == [];
    } else if StartsWithPair(t) {
      PairDecodes(t);
      DecodesFrom(s, k + 2);
      assert t[2..] == s[k + 2..];
      assert t[..2] + Mended(s)[k + 2..] == Mended(s)[k..];
    } else {
      UnitDecodes(t);
      DecodesFrom(s, k + 1);
      assert t[1..] == s[k + 1..];
      assert [Mended(s)[k]] + Mended(s)[k + 1..] == Mended(s)[k..];
    }
  }

  lemma NothingDecodes()
    ensures Utf8([]) == [] && DecodeUtf8([]) == Some([])
  {
  }

  /** For every string: the standard's decoder gives it back, with U+FFFD for every unpaired surrogate. */
  lemma Utf8RoundTrip(s: JsString)
    ensures DecodeUtf8(Utf8(s)) == Some(Mended(s))
    ensures DecodeUtf8(Utf8(s)) == Some(s) <==> WellFormed(s)
  {
    DecodesFrom(s, 0);
    assert s[0..] == s && Mended(s)[0..] == Mended(s);
    hide Utf8, DecodeUtf8;
    if Mended(s) == s {
      forall i | 0 <= i < |s|
        ensures !Unpaired(s, i)
      {
        assert Mended(s)[i] == s[i];
      }
    }
  }
}
