/**
 CRC-32 as the archive writers compute it, against the bit-serial definition of APPNOTE.TXT section 4.4.7
 (register preset to all ones, reflected polynomial, result inverted, magic number 0xDEBB20E3).
 */
module Crc32 {
  const POLYNOMIAL: bv32 := 0xedb8_8320
  const ALL_ONES: bv32 := 0xffff_ffff
  const MAGIC: bv32 := 0xdebb_20e3

  // The word operations, named so that proofs can treat them as symbols.

  function Xor(a: bv32, b: bv32): bv32 { a ^ b }

  function Half(c: bv32): bv32 { c >> 1 }

  predicate Odd(c: bv32) { c & 1 == 1 }

  function LowByte(c: bv32): bv32 { c & 0xff }

  function HighBytes(c: bv32): bv32 { c & 0xffff_ff00 }

  function DownByte(c: bv32): bv32 { c >> 8 }

  function Widen(b: bv8): bv32 { b as bv32 }

  // ---------- the reference: one message bit at a time ----------

  /** Shifts one message bit into the register. */
  function ShiftBit(register: bv32, bit: bool): bv32 {
    if Odd(register) != bit then Xor(POLYNOMIAL, Half(register)) else Half(register)
  }

  /** Shifts in the lowest `n` bits of `word`, least significant first. */
  function ShiftBits(register: bv32, word: bv32, n: nat): bv32
    decreases n
  {
    if n == 0 then register else ShiftBits(ShiftBit(register, Odd(word)), Half(word), n - 1)
  }

  function Serial(register: bv32, message: seq<bv8>): bv32
    decreases |message|
  {
    if message == [] then register else Serial(ShiftBits(register, Widen(message[0]), 8), message[1..])
  }

  /** The checksum of the standard. */
  function Crc(message: seq<bv8>): bv32 {
    Xor(Serial(ALL_ONES, message), ALL_ONES)
  }

  lemma CrcOfNothing()
    ensures Crc([]) == 0
  {
  }

  // ---------- rounds of the table's inner loop ----------

  function Round(c: bv32): bv32 {
    if Odd(c) then Xor(POLYNOMIAL, Half(c)) else Half(c)
  }

  function Rounds(c: bv32, n: nat): bv32
    decreases n
  {
    if n == 0 then c else Rounds(Round(c), n - 1)
  }

  lemma {:induction false} RoundsSnoc(c: bv32, n: nat)
    ensures Rounds(c, n + 1) == Round(Rounds(c, n))
    decreases n
  {
    hide Round;
    if n > 0 {
      RoundsSnoc(Round(c), n - 1);
    }
  }

  lemma XorFacts(a: bv32, b: bv32)
    ensures Half(Xor(a, b)) == Xor(Half(a), Half(b))
    ensures Odd(Xor(a, b)) == (Odd(a) != Odd(b))
  {
  }

  lemma XorMoves(p: bv32, x: bv32, y: bv32)
    ensures Xor(Xor(p, x), Xor(p, y)) == Xor(x, y)
    ensures Xor(p, Xor(x, y)) == Xor(Xor(p, x), y) == Xor(x, Xor(p, y))
  {
  }

  /** A round can be taken on two parts of a register separately. */
  lemma RoundLinear(a: bv32, b: bv32)
    ensures Round(Xor(a, b)) == Xor(Round(a), Round(b))
  {
    hide Xor, Half, Odd;
    XorFacts(a, b);
    XorMoves(POLYNOMIAL, Half(a), Half(b));
  }

  lemma {:induction false} RoundsLinear(a: bv32, b: bv32, n: nat)
    ensures Rounds(Xor(a, b), n) == Xor(Rounds(a, n), Rounds(b, n))
    decreases n
  {
    hide Xor, Round;
    if n > 0 {
      RoundLinear(a, b);
      RoundsLinear(Round(a), Round(b), n - 1);
    }
  }

  /** Shifting in the bits of a word is taking rounds on the register with the word added to it. */
  lemma {:induction false} ShiftBitsIsRounds(register: bv32, word: bv32, n: nat)
    requires n <= 32
    ensures Xor(ShiftBits(register, word, n), ShiftedOut(word, n)) == Rounds(Xor(register, word), n)
    decreases n
  {
    hide Xor, Half, Odd;
    if n > 0 {
      var next := ShiftBit(register, Odd(word));
      ShiftBitIsRound(register, word);
      ShiftBitsIsRounds(next, Half(word), n - 1);
    }
  }

  /** What is left of a word after `n` of its bits were shifted out. */
  function ShiftedOut(word: bv32, n: nat): bv32
    decreases n
  {
    if n == 0 then word else ShiftedOut(Half(word), n - 1)
  }

  lemma ShiftBitIsRound(register: bv32, word: bv32)
    ensures Round(Xor(register, word)) == Xor(ShiftBit(register, Odd(word)), Half(word))
  {
    hide Xor, Half, Odd;
    XorFacts(register, word);
    XorMoves(POLYNOMIAL, Half(register), Half(word));
  }

  // ---------- a byte at a time through the table ----------

  ghost predicate LowBitsClear(word: bv32, n: nat)
    decreases n
  {
    n == 0 || (!Odd(word) && LowBitsClear(Half(word), n - 1))
  }

  lemma {:induction false} RoundsOnClearBits(word: bv32, n: nat)
    requires LowBitsClear(word, n)
    ensures Rounds(word, n) == ShiftedOut(word, n)
    decreases n
  {
    hide Xor, Half, Odd;
    if n > 0 {
      RoundsOnClearBits(Half(word), n - 1);
    }
  }

  /** Halving eight times is moving down a byte. */
  lemma EightHalves(x: bv32) returns (h1: bv32, h2: bv32, h3: bv32, h4: bv32, h5: bv32, h6: bv32, h7: bv32)
    ensures h1 == Half(x) && h2 == Half(h1) && h3 == Half(h2) && h4 == Half(h3)
    ensures h5 == Half(h4) && h6 == Half(h5) && h7 == Half(h6) && DownByte(x) == Half(h7)
    ensures x & 0xff == 0 ==> !Odd(x) && !Odd(h1) && !Odd(h2) && !Odd(h3)
    ensures x & 0xff == 0 ==> !Odd(h4) && !Odd(h5) && !Odd(h6) && !Odd(h7)
  {
    h1, h2, h3, h4, h5, h6, h7 := x >> 1, x >> 2, x >> 3, x >> 4, x >> 5, x >> 6, x >> 7;
  }

  lemma EightShiftedOut(x: bv32)
    ensures ShiftedOut(x, 8) == DownByte(x)
    ensures x & 0xff == 0 ==> LowBitsClear(x, 8)
  {
    hide Half, Odd, DownByte;
    var h1, h2, h3, h4, h5, h6, h7 := EightHalves(x);
    assert ShiftedOut(h4, 4) == Half(h7);
    assert ShiftedOut(x, 8) == ShiftedOut(h4, 4);
    if x & 0xff == 0 {
      assert LowBitsClear(h4, 4);
    }
  }

  lemma HighBytesFacts(c: bv32)
    ensures HighBytes(c) & 0xff == 0 && DownByte(HighBytes(c)) == DownByte(c)
  {
  }

  lemma SplitBytes(c: bv32)
    ensures c == Xor(LowByte(c), HighBytes(c))
  {
  }

  /** Eight rounds: the low byte goes through the table, the rest moves down. */
  lemma EightRounds(c: bv32)
    ensures Rounds(c, 8) == Xor(Rounds(LowByte(c), 8), DownByte(c))
  {
    hide Xor, Half, Odd, LowByte, HighBytes, DownByte, Round, Rounds;
    HighBytesFacts(c);
    SplitBytes(c);
    RoundsLinear(LowByte(c), HighBytes(c), 8);
    EightShiftedOut(HighBytes(c));
    RoundsOnClearBits(HighBytes(c), 8);
  }

  lemma ByteFacts(register: bv32, b: bv8)
    ensures DownByte(Widen(b)) == 0
    ensures DownByte(Xor(register, Widen(b))) == DownByte(register)
    ensures forall x :: Xor(x, 0) == x
  {
  }

  /** What the table must hold at index `i`. */
  function TableEntry(i: nat): bv32
    requires i < 256
  {
    Rounds(i as bv32, 8)
  }

  function TableIndex(c: bv32): (i: nat)
    ensures i < 256 && i as bv32 == LowByte(c)
  {
    LowByte(c) as nat
  }

  /** One step of the table-driven loop is eight steps of the reference. */
  lemma TableStep(register: bv32, b: bv8)
    ensures Xor(TableEntry(TableIndex(Xor(register, Widen(b)))), DownByte(register))
         == ShiftBits(register, Widen(b), 8)
  {
    hide Xor, Half, Odd, LowByte, DownByte, Round, Rounds, Widen;
    ByteFacts(register, b);
    EightShiftedOut(Widen(b));
    ShiftBitsIsRounds(register, Widen(b), 8);
    EightRounds(Xor(register, Widen(b)));
  }

  lemma EntryIs(i: nat)
    requires i < 256
    ensures TableEntry(i) == Rounds(i as bv32, 8) && Rounds(i as bv32, 0) == i as bv32
  {
    hide Round;
  }

  method BuildTable() returns (table: array<bv32>)
    ensures table.Length == 256 && fresh(table)
    ensures forall i: nat :: i < 256 ==> table[i] == TableEntry(i)
  {
    hide TableEntry, Rounds, Xor, Half, Odd;
    table := new bv32[256];
    var i := 0;
    while i < 256
      invariant 0 <= i <= 256
      invariant forall j: nat :: j < i ==> table[j] == TableEntry(j)
    {
      ghost var start: bv32 := i as bv32;
      EntryIs(i);
      var c: bv32 := i as bv32;
      var k := 0;
      while k < 8
        invariant 0 <= k <= 8
        invariant c == Rounds(start, k)
        invariant forall j: nat :: j < i ==> table[j] == TableEntry(j)
      {
        RoundsSnoc(start, k);
        c := if Odd(c) then Xor(POLYNOMIAL, Half(c)) else Half(c);
        k := k + 1;
      }
      table[i] := c;
      i := i + 1;
    }
  }

  lemma {:induction false} SerialSnoc(register: bv32, message: seq<bv8>, b: bv8)
    ensures Serial(register, message + [b]) == ShiftBits(Serial(register, message), Widen(b), 8)
    decreases |message|
  {
    hide ShiftBits, Widen;
    if message == [] {
      assert Serial(register, [b]) == Serial(ShiftBits(register, Widen(b), 8), []);
    } else {
      assert (message + [b])[1..] == message[1..] + [b];
      SerialSnoc(ShiftBits(register, Widen(message[0]), 8), message[1..], b);
    }
  }

  /** The table-driven loop computes the checksum of the standard, for every byte sequence. */
  method TableCrc(table: array<bv32>, bytes: seq<bv8>) returns (crc: bv32)
    requires table.Length == 256
    requires forall i: nat :: i < 256 ==> table[i] == TableEntry(i)
    ensures crc == Crc(bytes)
  {
    hide Xor, DownByte, ShiftBits, Serial, TableEntry, Widen;
    var c := ALL_ONES;
    var i := 0;
    assert c == Serial(ALL_ONES, bytes[..0]) by { SerialNothing(); }
    while i < |bytes|
      invariant 0 <= i <= |bytes|
      invariant c == Serial(ALL_ONES, bytes[..i])
    {
      SerialSnoc(ALL_ONES, bytes[..i], bytes[i]);
      assert bytes[..i] + [bytes[i]] == bytes[..i + 1];
      TableStep(c, bytes[i]);
      c := Xor(table[TableIndex(Xor(c, Widen(bytes[i])))], DownByte(c));
      i := i + 1;
    }
    assert bytes[..i] == bytes;
    crc := Xor(c, ALL_ONES);
  }

  lemma SerialNothing()
    ensures Serial(ALL_ONES, []) == ALL_ONES
  {
  }

  // ---------- the magic number ----------

  lemma {:induction false} RoundsAdd(c: bv32, m: nat, n: nat)
    ensures Rounds(c, m + n) == Rounds(Rounds(c, m), n)
    decreases m
  {
    hide Round;
    if m > 0 {
      RoundsAdd(Round(c), m - 1, n);
    }
  }

  lemma Rounds8()
    ensures Rounds(0xffff_ffff, 8) == 0x2dfd_1072
  {
    assert Rounds(0xffff_ffff, 4) == 0xb242_0de3;
    RoundsAdd(0xffff_ffff, 4, 4);
  }

  lemma Rounds16()
    ensures Rounds(0x2dfd_1072, 8) == 0xbe26_ed00
  {
    assert Rounds(0x2dfd_1072, 4) == 0x39b1_f1cf;
    RoundsAdd(0x2dfd_1072, 4, 4);
  }

  lemma Rounds24()
    ensures Rounds(0xbe26_ed00, 8) == 0x00be_26ed
  {
    assert Rounds(0xbe26_ed00, 4) == 0x0be2_6ed0;
    RoundsAdd(0xbe26_ed00, 4, 4);
  }

  lemma Rounds32()
    ensures Rounds(0x00be_26ed, 8) == 0xdebb_20e3
  {
    assert Rounds(0x00be_26ed, 4) == 0x86d8_30ba;
    RoundsAdd(0x00be_26ed, 4, 4);
  }

  lemma RoundsOfOnes()
    ensures Rounds(ALL_ONES, 32) == MAGIC
  {
    Rounds8(); Rounds16(); Rounds24(); Rounds32();
    RoundsAdd(ALL_ONES, 8, 24);
    RoundsAdd(Rounds(ALL_ONES, 8), 8, 16);
    RoundsAdd(Rounds(Rounds(ALL_ONES, 8), 8), 8, 8);
  }

  lemma {:induction false} ShiftBitsAdd(register: bv32, word: bv32, m: nat, n: nat)
    ensures ShiftBits(register, word, m + n) == ShiftBits(ShiftBits(register, word, m), ShiftedOut(word, m), n)
    decreases m
  {
    hide ShiftBit, Half, Odd;
    if m > 0 {
      ShiftBitsAdd(ShiftBit(register, Odd(word)), Half(word), m - 1, n);
    }
  }

  lemma {:induction false} ShiftedOutAdd(word: bv32, m: nat, n: nat)
    ensures ShiftedOut(word, m + n) == ShiftedOut(ShiftedOut(word, m), n)
    decreases m
  {
    hide Half;
    if m > 0 {
      ShiftedOutAdd(Half(word), m - 1, n);
    }
  }

  ghost predicate SameLowBits(w: bv32, v: bv32, n: nat)
    decreases n
  {
    n == 0 || (Odd(w) == Odd(v) && SameLowBits(Half(w), Half(v), n - 1))
  }

  lemma {:induction false} OnlyLowBitsMatter(register: bv32, w: bv32, v: bv32, n: nat)
    requires SameLowBits(w, v, n)
    ensures ShiftBits(register, w, n) == ShiftBits(register, v, n)
    decreases n
  {
    hide ShiftBit, Half, Odd;
    if n > 0 {
      OnlyLowBitsMatter(ShiftBit(register, Odd(w)), Half(w), Half(v), n - 1);
    }
  }

  ghost predicate AgreeOn(w: bv32, v: bv32, mask: bv32) {
    w & mask == v & mask
  }

  lemma Halving(w: bv32, v: bv32, mask: bv32)
    requires AgreeOn(w, v, mask) && Odd(mask)
    ensures Odd(w) == Odd(v)
    ensures AgreeOn(Half(w), Half(v), Half(mask))
  {
  }

  /** The lowest `n` bits of `mask` are set. */
  ghost predicate Covers(mask: bv32, n: nat)
    decreases n
  {
    n == 0 || (Odd(mask) && Covers(Half(mask), n - 1))
  }

  lemma {:induction false} AgreeingBits(w: bv32, v: bv32, mask: bv32, n: nat)
    requires AgreeOn(w, v, mask) && Covers(mask, n)
    ensures SameLowBits(w, v, n)
    decreases n
  {
    hide Half, Odd, AgreeOn;
    if n > 0 {
      Halving(w, v, mask);
      AgreeingBits(Half(w), Half(v), Half(mask), n - 1);
    }
  }

  lemma LowByteAgrees(w: bv32)
    ensures AgreeOn(w, LowByte(w), 0xff)
  {
  }

  lemma ByteMaskCovers()
    ensures Covers(0xff, 8)
  {
    assert Covers(0xf, 4);
  }

  lemma EightBits(register: bv32, w: bv32)
    ensures ShiftBits(register, w, 8) == ShiftBits(register, LowByte(w), 8)
  {
    hide AgreeOn, Covers, LowByte;
    LowByteAgrees(w);
    ByteMaskCovers();
    AgreeingBits(w, LowByte(w), 0xff, 8);
    OnlyLowBitsMatter(register, w, LowByte(w), 8);
  }

  function Narrow(w: bv32): (b: bv8)
    ensures Widen(b) == LowByte(w)
  {
    LowByte(w) as bv8
  }

  /** A checksum as it stands in an archive: four bytes, least significant first. */
  function CrcField(w: bv32): seq<bv8> {
    [Narrow(w), Narrow(DownByte(w)), Narrow(DownByte(DownByte(w))), Narrow(DownByte(DownByte(DownByte(w))))]
  }

  lemma FourBytes(register: bv32, w: bv32)
    ensures Serial(register, CrcField(w)) == ShiftBits(register, w, 32)
  {
    hide Serial, ShiftBits, ShiftedOut, DownByte, LowByte, Narrow, Widen;
    var w1 := DownByte(w);
    var w2 := DownByte(w1);
    var w3 := DownByte(w2);
    var r1 := ShiftBits(register, w, 8);
    var r2 := ShiftBits(r1, w1, 8);
    var r3 := ShiftBits(r2, w2, 8);
    EightShiftedOut(w); EightShiftedOut(w1); EightShiftedOut(w2);
    ShiftBitsAdd(register, w, 8, 24); ShiftBitsAdd(r1, w1, 8, 16); ShiftBitsAdd(r2, w2, 8, 8);
    EightBits(register, w); EightBits(r1, w1); EightBits(r2, w2); EightBits(r3, w3);
    var field := CrcField(w);
    assert field == [field[0]] + [field[1]] + [field[2]] + [field[3]];
    SerialConcat(register, [field[0]] + [field[1]] + [field[2]], [field[3]]);
    SerialConcat(register, [field[0]] + [field[1]], [field[2]]);
    SerialConcat(register, [field[0]], [field[1]]);
    SerialOne(register, field[0]); SerialOne(r1, field[1]); SerialOne(r2, field[2]); SerialOne(r3, field[3]);
  }

  lemma SerialOne(register: bv32, b: bv8)
    ensures Serial(register, [b]) == ShiftBits(register, Widen(b), 8)
  {
    hide ShiftBits, Widen;
    assert Serial(register, [b]) == Serial(ShiftBits(register, Widen(b), 8), []);
  }

  lemma {:induction false} SerialConcat(register: bv32, a: seq<bv8>, b: seq<bv8>)
    ensures Serial(register, a + b) == Serial(Serial(register, a), b)
    decreases |a|
  {
    hide ShiftBits, Widen;
    if a == [] {
      assert a + b == b;
    } else {
      assert (a + b)[1..] == a[1..] + b;
      SerialConcat(ShiftBits(register, Widen(a[0]), 8), a[1..], b);
    }
  }

  lemma InvertedAdds(register: bv32)
    ensures Xor(register, Xor(register, ALL_ONES)) == ALL_ONES
    ensures Xor(register, 0) == register
  {
  }

  lemma FourBytesDown(w: bv32)
    ensures DownByte(DownByte(DownByte(DownByte(w)))) == 0
  {
  }

  lemma ShiftedOutAll(w: bv32)
    ensures ShiftedOut(w, 32) == 0
  {
    hide ShiftedOut, DownByte;
    FourBytesDown(w);
    var w1 := DownByte(w);
    var w2 := DownByte(w1);
    EightShiftedOut(w); EightShiftedOut(w1); EightShiftedOut(w2); EightShiftedOut(DownByte(w2));
    ShiftedOutAdd(w, 8, 24); ShiftedOutAdd(w1, 8, 16); ShiftedOutAdd(w2, 8, 8);
  }

  /**
   The check of the standard: for every message, running the register over the message followed by its own
   checksum ends in the magic number.
   */
  lemma MagicNumber(message: seq<bv8>)
    ensures Serial(ALL_ONES, message + CrcField(Crc(message))) == MAGIC
  {
    hide Xor, CrcField, ShiftBits, ShiftedOut, Rounds, Serial;
    var r := Serial(ALL_ONES, message);
    var w := Crc(message);
    assert w == Xor(r, ALL_ONES);
    SerialConcat(ALL_ONES, message, CrcField(w));
    FourBytes(r, w);
    ShiftBitsIsRounds(r, w, 32);
    ShiftedOutAll(w);
    InvertedAdds(r);
    InvertedAdds(ShiftBits(r, w, 32));
    RoundsOfOnes();
  }
}
