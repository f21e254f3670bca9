/** Names of chunk objects: six-digit decimal indices, which sort as their numbers do and can be read back. */
module ChunkNames {
  import opened Wrappers
  import opened ArchivePaths
  import opened UniquePaths

  // The fixed parts of a key, spelt in code units.
  const ROOT: JsString := [0x76, 0x31, 0x2f, 0x73, 0x74, 0x6f, 0x72, 0x65, 0x64, 0x2f]   // v1/stored/
  const MARK: JsString := [0x2f, 0x63, 0x68, 0x75, 0x6e, 0x6b, 0x2d]   // /chunk-
  const EXTENSION: JsString := [0x2e, 0x62, 0x69, 0x6e]   // .bin

  function Zeros(n: nat): JsString {
    if n == 0 then [] else Zeros(n - 1) + [ZERO]
  }

  function PadStart(s: JsString, width: nat): JsString {
    Zeros(if |s| < width then width - |s| else 0) + s
  }

  function ChunkName(index: nat): JsString {
    MARK[1..] + PadStart(Decimal(index), 6) + EXTENSION
  }

  function ObjectKey(prefix: JsString, name: JsString): JsString {
    ROOT + prefix + [SLASH] + name
  }

  predicate AllDigits(s: JsString) {
    forall i :: 0 <= i < |s| ==> ZERO <= s[i] <= ZERO + 9
  }

  function Number(s: JsString): nat
    requires AllDigits(s)
  {
    if s == [] then 0 else Number(s[..|s| - 1]) * 10 + (s[|s| - 1] - ZERO)
  }

  /** The key must end in a slash, `chunk-`, exactly six digits and `.bin`; index zero is no index. */
  function ParseChunkIndex(key: JsString): Option<nat> {
    if |key| < 17 then None
    else
      var name := key[|key| - 17..];
      if name[..7] == MARK && AllDigits(name[7..13]) && name[13..] == EXTENSION && Number(name[7..13]) >= 1
      then Some(Number(name[7..13])) else None
  }

  // ---------- decimal notation ----------

  function Pow10(n: nat): nat {
    if n == 0 then 1 else 10 * Pow10(n - 1)
  }

  /** Fixed-width notation, as both padding and longer numbers yield it. */
  function Fixed(n: nat, width: nat): JsString
    decreases width
  {
    if width == 0 then [] else Fixed(n / 10, width - 1) + [ZERO + n % 10]
  }

  lemma {:induction false} FixedFacts(n: nat, width: nat)
    ensures |Fixed(n, width)| == width && AllDigits(Fixed(n, width))
    ensures n < Pow10(width) ==> Number(Fixed(n, width)) == n
    decreases width
  {
    if width > 0 {
      FixedFacts(n / 10, width - 1);
      var s := Fixed(n, width);
      assert s[..width - 1] == Fixed(n / 10, width - 1) && s[width - 1] == ZERO + n % 10;
    }
  }

  lemma {:induction false} DecimalFacts(n: nat)
    ensures |Decimal(n)| >= 1 && AllDigits(Decimal(n)) && Decimal(n) == Fixed(n, |Decimal(n)|)
    ensures forall w: nat :: w >= 1 ==> (n < Pow10(w) <==> |Decimal(n)| <= w)
  {
    if n < 10 {
      assert Fixed(n, 1) == Fixed(n / 10, 0) + [ZERO + n % 10];
      forall w: nat | w >= 1
        ensures n < Pow10(w)
      {
        TenOrMore(w);
      }
    } else {
      DecimalFacts(n / 10);
      forall w: nat | w >= 1
        ensures n < Pow10(w) <==> |Decimal(n)| <= w
      {
        if w > 1 {
          assert n / 10 < Pow10(w - 1) <==> |Decimal(n / 10)| <= w - 1;
        }
      }
    }
  }

  lemma {:induction false} TenOrMore(w: nat)
    requires w >= 1
    ensures Pow10(w) >= 10
  {
    if w > 1 {
      TenOrMore(w - 1);
    }
  }

  lemma {:induction false} PaddingIsFixed(n: nat, width: nat, zeros: nat)
    ensures n < Pow10(width) ==> Fixed(n, zeros + width) == Zeros(zeros) + Fixed(n, width)
    decreases width
  {
    if n < Pow10(width) {
      if width == 0 {
        ZerosAreFixed(zeros);
        assert Zeros(zeros) + Fixed(n, 0) == Zeros(zeros);
      } else {
        PaddingIsFixed(n / 10, width - 1, zeros);
        assert Zeros(zeros) + (Fixed(n / 10, width - 1) + [ZERO + n % 10])
            == (Zeros(zeros) + Fixed(n / 10, width - 1)) + [ZERO + n % 10];
      }
    }
  }

  lemma {:induction false} ZerosAreFixed(zeros: nat)
    ensures Fixed(0, zeros) == Zeros(zeros)
  {
    if zeros > 0 {
      ZerosAreFixed(zeros - 1);
    }
  }

  lemma SixPlaces()
    ensures Pow10(6) == 1_000_000
  {
  }

  lemma SixDigits(index: nat)
    ensures index <= 999_999 ==> PadStart(Decimal(index), 6) == Fixed(index, 6)
    ensures index > 999_999 ==> PadStart(Decimal(index), 6) == Decimal(index) && |Decimal(index)| > 6
  {
    hide Fixed, Decimal, Number, Pow10;
    DecimalFacts(index);
    SixPlaces();
    var d := Decimal(index);
    assert index < Pow10(6) <==> |d| <= 6;
    if |d| <= 6 {
      PaddingIsFixed(index, |d|, 6 - |d|);
    } else {
      assert Zeros(0) + d == d;
    }
  }

  lemma Parts(head: JsString, mark: JsString, digits: JsString, extension: JsString)
    requires |mark| == 7 && |digits| >= 6 && |extension| == 4
    ensures var key := head + mark + digits + extension;
            var name := key[|key| - 17..];
            && name[7..13] == digits[|digits| - 6..] && name[13..] == extension
            && (|digits| == 6 ==> name[..7] == mark)
            && (|digits| > 6 ==> name[..7][6] == digits[|digits| - 7])
  {
    var key := head + mark + digits + extension;
    var name := key[|key| - 17..];
  }

  lemma ParseOf(head: JsString, digits: JsString)
    requires AllDigits(digits) && |digits| >= 6
    ensures ParseChunkIndex(head + MARK + digits + EXTENSION)
         == if |digits| == 6 && Number(digits) >= 1 then Some(Number(digits)) else None
  {
    hide Number;
    Parts(head, MARK, digits, EXTENSION);
    assert MARK[6] == 0x2d;
    assert |digits| == 6 ==> digits[|digits| - 6..] == digits;
  }

  /** A chunk's key gives its index back exactly for the indices of at most six digits. */
  lemma ChunkKeyRoundTrip(prefix: JsString, index: nat)
    ensures ParseChunkIndex(ObjectKey(prefix, ChunkName(index))) == if 1 <= index <= 999_999 then Some(index) else None
  {
    hide Fixed, Decimal, Number, Zeros, Pow10, PadStart, ParseChunkIndex;
    SixDigits(index);
    SixPlaces();
    DecimalFacts(index);
    FixedFacts(index, 6);
    var digits := PadStart(Decimal(index), 6);
    ParseOf(ROOT + prefix, digits);
    assert [SLASH] + MARK[1..] == MARK;
    assert ObjectKey(prefix, ChunkName(index)) == (ROOT + prefix) + MARK + digits + EXTENSION;
  }

  lemma {:induction false} FixedOfNumber(s: JsString)
    requires AllDigits(s)
    ensures Number(s) < Pow10(|s|) && Fixed(Number(s), |s|) == s
    decreases |s|
  {
    if s != [] {
      var n := |s| - 1;
      FixedOfNumber(s[..n]);
      assert Number(s) / 10 == Number(s[..n]) && Number(s) % 10 == s[n] - ZERO;
      assert s == s[..n] + [s[n]];
    }
  }

  /** Exactly the keys that end in a chunk's name of six digits have an index, and which. */
  lemma ParsesExactly(key: JsString, index: nat)
    ensures ParseChunkIndex(key) == Some(index)
            <==> 1 <= index <= 999_999 && exists head :: key == head + MARK + Fixed(index, 6) + EXTENSION
  {
    hide Fixed, Number, Pow10, AllDigits;
    SixPlaces();
    if ParseChunkIndex(key) == Some(index) {
      var head, name := key[..|key| - 17], key[|key| - 17..];
      FixedOfNumber(name[7..13]);
      assert name == name[..7] + name[7..13] + name[13..];
      assert key == head + MARK + Fixed(index, 6) + EXTENSION;
    }
    if 1 <= index <= 999_999 && exists head :: key == head + MARK + Fixed(index, 6) + EXTENSION {
      var head :| key == head + MARK + Fixed(index, 6) + EXTENSION;
      FixedFacts(index, 6);
      ParseOf(head, Fixed(index, 6));
    }
  }

  // ---------- listing order ----------

  predicate LexLess(a: JsString, b: JsString) {
    if b == [] then false
    else if a == [] then true
    else a[0] < b[0] || (a[0] == b[0] && LexLess(a[1..], b[1..]))
  }

  lemma {:induction false} LexLastDigit(a: JsString, b: JsString, c: Unit, d: Unit)
    requires |a| == |b|
    ensures LexLess(a + [c], b + [d]) <==> LexLess(a, b) || (a == b && c < d)
    decreases |a|
  {
    if a == [] {
      assert a + [c] == [c] && b + [d] == [d];
      assert [c][1..] == [] && [d][1..] == [];
    } else {
      assert (a + [c])[1..] == a[1..] + [c] && (b + [d])[1..] == b[1..] + [d];
      LexLastDigit(a[1..], b[1..], c, d);
      assert a == [a[0]] + a[1..] && b == [b[0]] + b[1..];
    }
  }

  lemma FixedUnfold(n: nat, width: nat)
    requires width > 0
    ensures Fixed(n, width) == Fixed(n / 10, width - 1) + [ZERO + n % 10]
  {
  }

  lemma SnocEqual(a: JsString, b: JsString, c: Unit, d: Unit)
    ensures a + [c] == b + [d] <==> a == b && c == d
  {
    if a + [c] == b + [d] {
      assert |a + [c]| == |b + [d]| && (a + [c])[|a|] == c && (b + [d])[|b|] == d;
      assert (a + [c])[..|a|] == a && (b + [d])[..|b|] == b;
    }
  }

  lemma TenfoldOrder(i: nat, j: nat)
    ensures i < j <==> i / 10 < j / 10 || (i / 10 == j / 10 && i % 10 < j % 10)
    ensures i == j <==> i / 10 == j / 10 && i % 10 == j % 10
  {
  }

  lemma {:induction false} FixedSorts(i: nat, j: nat, width: nat)
    requires i < Pow10(width) && j < Pow10(width)
    ensures LexLess(Fixed(i, width), Fixed(j, width)) <==> i < j
    ensures Fixed(i, width) == Fixed(j, width) <==> i == j
    decreases width
  {
    hide Number, LexLess;
    if width == 0 {
      NothingSorts();
    } else {
      FixedSorts(i / 10, j / 10, width - 1);
      FixedFacts(i / 10, width - 1);
      FixedFacts(j / 10, width - 1);
      FixedUnfold(i, width);
      FixedUnfold(j, width);
      hide Fixed, Pow10;
      LexLastDigit(Fixed(i / 10, width - 1), Fixed(j / 10, width - 1), ZERO + i % 10, ZERO + j % 10);
      SnocEqual(Fixed(i / 10, width - 1), Fixed(j / 10, width - 1), ZERO + i % 10, ZERO + j % 10);
      TenfoldOrder(i, j);
    }
  }

  lemma NothingSorts()
    ensures !LexLess([], [])
  {
  }

  lemma {:induction false} LexPrefix(p: JsString, a: JsString, b: JsString)
    ensures LexLess(p + a, p + b) <==> LexLess(a, b)
    decreases |p|
  {
    if p == [] {
      assert p + a == a && p + b == b;
    } else {
      assert (p + a)[1..] == p[1..] + a && (p + b)[1..] == p[1..] + b;
      LexPrefix(p[1..], a, b);
    }
  }

  lemma {:induction false} LexSuffix(a: JsString, b: JsString, s: JsString)
    requires |a| == |b| && a != b
    ensures LexLess(a + s, b + s) <==> LexLess(a, b)
    decreases |a|
  {
    assert (a + s)[1..] == a[1..] + s && (b + s)[1..] == b[1..] + s;
    if a[0] == b[0] {
      assert a == [a[0]] + a[1..] && b == [b[0]] + b[1..];
      LexSuffix(a[1..], b[1..], s);
    }
  }

  /** Chunk objects are listed in the order of their indices. */
  lemma NamesSortByIndex(i: nat, j: nat)
    requires i <= 999_999 && j <= 999_999 && i != j
    ensures LexLess(ChunkName(i), ChunkName(j)) <==> i < j
  {
    hide Fixed, PadStart, LexLess, Decimal, Number, Pow10, Zeros;
    SixDigits(i);
    SixDigits(j);
    SixPlaces();
    FixedSorts(i, j, 6);
    FixedFacts(i, 6);
    FixedFacts(j, 6);
    var a, b := Fixed(i, 6), Fixed(j, 6);
    LexSuffix(a, b, EXTENSION);
    LexPrefix(MARK[1..], a + EXTENSION, b + EXTENSION);
    assert ChunkName(i) == MARK[1..] + (a + EXTENSION) && ChunkName(j) == MARK[1..] + (b + EXTENSION);
  }
}
