/** PIN material: how it is stored, checked on arrival, and compared with a guess. */
module Pin {
  import opened Wrappers
  import opened Bytes
  import opened Bitwise
  import opened Base64Url

  const SALT_LEN: nat := 16
  const HASH_LEN: nat := 32

  /** What is stored of a PIN; two empty texts stand for no PIN. */
  datatype PinMaterial = PinMaterial(salt: string, hash: string)

  const NO_PIN := PinMaterial("", "")

  /** The password hash, with HASH_LEN bytes of result. */
  type Derive = (seq<byte>, string) -> seq<byte>

  ghost predicate IsHash(derive: Derive) {
    forall salt, pin :: |derive(salt, pin)| == HASH_LEN
  }

  predicate IsBase64Url(text: string) {
    text != "" && InAlphabet(text)
  }

  function DecodePinnedValue(text: string, expectedLength: nat): Option<seq<byte>> {
    if !IsBase64Url(text) then None
    else
      var value := Decode(text);
      if value.None? || |value.value| != expectedLength then None else value
  }

  predicate ValidPinMaterial(pin: PinMaterial) {
    if pin.salt == "" && pin.hash == "" then true
    else if pin.salt == "" || pin.hash == "" then false
    else DecodePinnedValue(pin.salt, SALT_LEN).Some? && DecodePinnedValue(pin.hash, HASH_LEN).Some?
  }

  predicate PinRequired(pin: PinMaterial) {
    |pin.hash| > 0
  }

  predicate FourDigits(pin: string) {
    |pin| == 4 && forall i :: 0 <= i < 4 ==> '0' <= pin[i] <= '9'
  }

  /** The guess is four digits, and hashes with the stored salt to the stored hash. */
  predicate PinMatches(derive: Derive, pin: PinMaterial, guess: string) {
    var salt, expected := DecodePinnedValue(pin.salt, SALT_LEN), DecodePinnedValue(pin.hash, HASH_LEN);
    FourDigits(guess) && salt.Some? && expected.Some? && derive(salt.value, guess) == expected.value
  }

  /** What a sender uploads for its PIN. */
  function HashPin(derive: Derive, salt: seq<byte>, pin: string): PinMaterial {
    PinMaterial(Encode(salt), Encode(derive(salt, pin)))
  }

  function Digit(n: nat): char
    requires n < 10
  {
    ('0' as int + n) as char
  }

  /** The four decimal digits of a PIN as the sender's side writes it. */
  function Digits(value: nat): string
    requires value < 10_000
  {
    [Digit(value / 1000), Digit(value / 100 % 10), Digit(value / 10 % 10), Digit(value % 10)]
  }

  /** The texts taken for a PIN are exactly the written numbers below ten thousand, each of one number. */
  lemma PinsAreNumbers(text: string)
    ensures FourDigits(text) <==> exists value: nat :: value < 10_000 && text == Digits(value)
    ensures forall a: nat, b: nat :: a < 10_000 && b < 10_000 && Digits(a) == Digits(b) ==> a == b
  {
    forall a: nat, b: nat | a < 10_000 && b < 10_000 && Digits(a) == Digits(b)
      ensures a == b
    {
      SameDigits(a, b);
    }
    if FourDigits(text) {
      var a, b, c, d: nat := DigitValue(text[0]), DigitValue(text[1]), DigitValue(text[2]), DigitValue(text[3]);
      var value: nat := 1000 * a + 100 * b + 10 * c + d;
      Places(a, b, c, d);
      assert text == Digits(value);
    }
  }

  function DigitValue(c: char): (n: nat)
    requires '0' <= c <= '9'
    ensures n < 10 && Digit(n) == c
  {
    c as int - '0' as int
  }

  lemma Places(a: nat, b: nat, c: nat, d: nat)
    requires a < 10 && b < 10 && c < 10 && d < 10
    ensures var value := 1000 * a + 100 * b + 10 * c + d;
            value < 10_000 && value / 1000 == a && value / 100 % 10 == b && value / 10 % 10 == c && value % 10 == d
  {
    var value := 1000 * a + 100 * b + 10 * c + d;
    assert value / 10 == 100 * a + 10 * b + c;
    assert value / 100 == 10 * a + b;
  }

  lemma SameDigits(a: nat, b: nat)
    requires a < 10_000 && b < 10_000 && Digits(a) == Digits(b)
    ensures a == b
  {
    Recomposed(a);
    Recomposed(b);
    OneDigit(a / 1000, b / 1000);
    OneDigit(a / 100 % 10, b / 100 % 10);
    OneDigit(a / 10 % 10, b / 10 % 10);
    OneDigit(a % 10, b % 10);
    assert Digits(a)[0] == Digits(b)[0] && Digits(a)[1] == Digits(b)[1];
    assert Digits(a)[2] == Digits(b)[2] && Digits(a)[3] == Digits(b)[3];
    hide Digit;
  }

  lemma OneDigit(m: nat, n: nat)
    requires m < 10 && n < 10
    ensures Digit(m) == Digit(n) ==> m == n
  {
  }

  lemma Recomposed(value: nat)
    ensures value / 10 == 10 * (value / 100) + value / 10 % 10
    ensures value / 100 == 10 * (value / 1000) + value / 100 % 10
    ensures value == 10 * (value / 10) + value % 10
  {
  }

  /** A PIN is asked for exactly where the share has one. */
  lemma RequiredExactly(pin: PinMaterial)
    requires ValidPinMaterial(pin)
    ensures PinRequired(pin) <==> pin != NO_PIN
  {
  }

  /** Material is valid exactly if there is none, or it has the lengths of the encodings and their alphabet. */
  lemma ValidPinMaterialIs(pin: PinMaterial)
    ensures ValidPinMaterial(pin)
            <==> pin == NO_PIN || (|pin.salt| == 22 && InAlphabet(pin.salt) && |pin.hash| == 43 && InAlphabet(pin.hash))
  {
    hide Decode, InAlphabet;
    DecodesExactly(pin.salt);
    DecodesExactly(pin.hash);
  }

  /** A sender's material is valid, and a guess matches it exactly if it is four digits with the PIN's hash. */
  lemma GuessesMatchExactly(derive: Derive, salt: seq<byte>, pin: string, guess: string)
    requires IsHash(derive) && |salt| == SALT_LEN
    ensures var material := HashPin(derive, salt, pin);
            && ValidPinMaterial(material) && PinRequired(material)
            && (PinMatches(derive, material, guess) <==> FourDigits(guess) && derive(salt, guess) == derive(salt, pin))
  {
    hide Decode, Encode, InAlphabet, FourDigits;
    DecodeInvertsEncode(salt);
    DecodeInvertsEncode(derive(salt, pin));
    EncodedIs(salt);
    EncodedIs(derive(salt, pin));
  }

  /** No early exit: the differences of all bytes are folded. */
  method ConstantTimeEq(a: seq<byte>, b: seq<byte>) returns (same: bool)
    ensures same <==> a == b
  {
    if |a| != |b| {
      return false;
    }
    var diff: nat := 0;
    for i := 0 to |a|
      invariant diff == 0 <==> a[..i] == b[..i]
    {
      XorIsZero(a[i], b[i]);
      OrIsZero(diff, BitXor(a[i], b[i]));
      assert a[..i + 1] == a[..i] + [a[i]] && b[..i + 1] == b[..i] + [b[i]];
      diff := BitOr(diff, BitXor(a[i], b[i]));
    }
    assert a[..|a|] == a && b[..|b|] == b;
    return diff == 0;
  }

  method VerifyPin(derive: Derive, guess: string, pin: PinMaterial) returns (ok: bool)
    ensures ok <==> PinMatches(derive, pin, guess)
  {
    if !FourDigits(guess) {
      return false;
    }
    var salt, expected := DecodePinnedValue(pin.salt, SALT_LEN), DecodePinnedValue(pin.hash, HASH_LEN);
    if salt.None? || expected.None? {
      return false;
    }
    var actual := derive(salt.value, guess);
    ok := ConstantTimeEq(actual, expected.value);
  }
}
