/**
 The check value that catalogues of checksums give for CRC-32: the checksum of the nine digits "123456789" is 0xCBF43926.
 The register is computed on a datatype of bits, one hexadecimal digit a field; its steps are those of `FeedBit`.
 */
module CrcCheck {
  import opened Types
  import opened Crc32

  /** A hexadecimal digit, its lowest bit first. */
  datatype Digit = Digit(a: bool, b: bool, c: bool, d: bool)

  /** A 32-bit register, its lowest digit first. */
  datatype Register = Register(d0: Digit, d1: Digit, d2: Digit, d3: Digit, d4: Digit, d5: Digit, d6: Digit, d7: Digit)

  const D0 := Digit(false, false, false, false)
  const D1 := Digit(true, false, false, false)
  const D2 := Digit(false, true, false, false)
  const D3 := Digit(true, true, false, false)
  const D4 := Digit(false, false, true, false)
  const D5 := Digit(true, false, true, false)
  const D6 := Digit(false, true, true, false)
  const D7 := Digit(true, true, true, false)
  const D8 := Digit(false, false, false, true)
  const D9 := Digit(true, false, false, true)
  const DA := Digit(false, true, false, true)
  const DB := Digit(true, true, false, true)
  const DC := Digit(false, false, true, true)
  const DD := Digit(true, false, true, true)
  const DE := Digit(false, true, true, true)
  const DF := Digit(true, true, true, true)

  function BitsOfDigit(x: Digit): Bits
  {
    [x.a, x.b, x.c, x.d]
  }

  function Bit(b: bool): nat
  {
    if b then 1 else 0
  }

  function DigitValue(x: Digit): nat
  {
    Bit(x.a) + 2 * Bit(x.b) + 4 * Bit(x.c) + 8 * Bit(x.d)
  }

  // The bits of a register from each of its digits on.

  function From7(r: Register): (b: Bits) ensures |b| == 4 { BitsOfDigit(r.d7) + [] }
  function From6(r: Register): (b: Bits) ensures |b| == 8 { BitsOfDigit(r.d6) + From7(r) }
  function From5(r: Register): (b: Bits) ensures |b| == 12 { BitsOfDigit(r.d5) + From6(r) }
  function From4(r: Register): (b: Bits) ensures |b| == 16 { BitsOfDigit(r.d4) + From5(r) }
  function From3(r: Register): (b: Bits) ensures |b| == 20 { BitsOfDigit(r.d3) + From4(r) }
  function From2(r: Register): (b: Bits) ensures |b| == 24 { BitsOfDigit(r.d2) + From3(r) }
  function From1(r: Register): (b: Bits) ensures |b| == 28 { BitsOfDigit(r.d1) + From2(r) }

  function WordOf(r: Register): Word
  {
    BitsOfDigit(r.d0) + From1(r)
  }

  function Value(r: Register): nat
  {
    DigitValue(r.d0) + 0x10 * DigitValue(r.d1) + 0x100 * DigitValue(r.d2) + 0x1000 * DigitValue(r.d3)
    + 0x1_0000 * DigitValue(r.d4) + 0x10_0000 * DigitValue(r.d5) + 0x100_0000 * DigitValue(r.d6) + 0x1000_0000 * DigitValue(r.d7)
  }

  lemma DigitBitsValue(x: Digit)
    ensures NatOfBits(BitsOfDigit(x)) == DigitValue(x)
  {
    var bits := BitsOfDigit(x);
    assert bits[1..] == [x.b, x.c, x.d] && bits[1..][1..] == [x.c, x.d] && bits[1..][1..][1..] == [x.d] && [x.d][1..] == [];
    assert NatOfBits([x.d]) == Bit(x.d);
    assert NatOfBits([x.c, x.d]) == Bit(x.c) + 2 * Bit(x.d);
  }

  lemma DigitIsValue(x: Digit, rest: Bits)
    ensures NatOfBits(BitsOfDigit(x) + rest) == DigitValue(x) + 0x10 * NatOfBits(rest)
  {
    var bits := BitsOfDigit(x);
    DigitBitsValue(x);
    ValueConcat(bits, rest);
    assert Pow2(4) == 0x10;
  }

  lemma WordHasValue(r: Register)
    ensures NatOfBits(WordOf(r)) == Value(r)
  {
    hide NatOfBits, BitsOfDigit, DigitValue;
    DigitIsValue(r.d7, []);
    DigitIsValue(r.d6, From7(r));
    DigitIsValue(r.d5, From6(r));
    DigitIsValue(r.d4, From5(r));
    DigitIsValue(r.d3, From4(r));
    DigitIsValue(r.d2, From3(r));
    DigitIsValue(r.d1, From2(r));
    DigitIsValue(r.d0, From1(r));
    NothingHasNoValue();
  }

  lemma NothingHasNoValue()
    ensures NatOfBits([]) == 0
  {
  }

  /** 0xEDB88320. */
  const POLYNOMIAL := Register(D0, D2, D3, D8, D8, DB, DD, DE)

  lemma PolynomialIs()
    ensures Polynomial() == WordOf(POLYNOMIAL)
  {
    WordHasValue(POLYNOMIAL);
    NatOfBitsInjective(Polynomial(), WordOf(POLYNOMIAL));
  }

  // ---- Steps of the register ----

  function ShiftedIn(x: Digit, next: Digit): Digit
  {
    Digit(x.b, x.c, x.d, next.a)
  }

  function Shifted(r: Register): Register
  {
    Register(ShiftedIn(r.d0, r.d1), ShiftedIn(r.d1, r.d2), ShiftedIn(r.d2, r.d3), ShiftedIn(r.d3, r.d4),
             ShiftedIn(r.d4, r.d5), ShiftedIn(r.d5, r.d6), ShiftedIn(r.d6, r.d7), ShiftedIn(r.d7, D0))
  }

  function XorDigit(x: Digit, y: Digit): Digit
  {
    Digit(x.a != y.a, x.b != y.b, x.c != y.c, x.d != y.d)
  }

  function XorRegister(r: Register, s: Register): Register
  {
    Register(XorDigit(r.d0, s.d0), XorDigit(r.d1, s.d1), XorDigit(r.d2, s.d2), XorDigit(r.d3, s.d3),
             XorDigit(r.d4, s.d4), XorDigit(r.d5, s.d5), XorDigit(r.d6, s.d6), XorDigit(r.d7, s.d7))
  }

  function Step(r: Register, bit: bool): Register
  {
    if r.d0.a != bit then XorRegister(Shifted(r), POLYNOMIAL) else Shifted(r)
  }

  lemma XorByDigit(x: Digit, a: Bits, y: Digit, b: Bits)
    requires |a| == |b|
    ensures Xor(BitsOfDigit(x) + a, BitsOfDigit(y) + b) == BitsOfDigit(XorDigit(x, y)) + Xor(a, b)
  {
  }

  lemma XorOfWords(r: Register, s: Register)
    ensures Xor(WordOf(r), WordOf(s)) == WordOf(XorRegister(r, s))
  {
    hide Xor, BitsOfDigit, XorDigit;
    XorByDigit(r.d0, From1(r), s.d0, From1(s));
    XorByDigit(r.d1, From2(r), s.d1, From2(s));
    XorByDigit(r.d2, From3(r), s.d2, From3(s));
    XorByDigit(r.d3, From4(r), s.d3, From4(s));
    XorByDigit(r.d4, From5(r), s.d4, From5(s));
    XorByDigit(r.d5, From6(r), s.d5, From6(s));
    XorByDigit(r.d6, From7(r), s.d6, From7(s));
    XorByDigit(r.d7, [], s.d7, []);
    NothingToXor();
  }

  lemma NothingToXor()
    ensures Xor([], []) == []
  {
  }

  /** The register without its lowest bit and with a zero on top. */
  function Rolled(bits: Bits): Bits
    requires bits != []
  {
    bits[1..] + [false]
  }

  lemma ShiftByDigit(x: Digit, next: Digit, rest: Bits)
    ensures Rolled(BitsOfDigit(x) + (BitsOfDigit(next) + rest)) == BitsOfDigit(ShiftedIn(x, next)) + Rolled(BitsOfDigit(next) + rest)
  {
  }

  lemma ShiftTopDigit(x: Digit)
    ensures Rolled(BitsOfDigit(x) + []) == BitsOfDigit(ShiftedIn(x, D0)) + []
  {
  }

  lemma ShiftOfWord(r: Register)
    ensures Shift(WordOf(r)) == WordOf(Shifted(r))
  {
    hide Rolled, BitsOfDigit, ShiftedIn;
    ShiftByDigit(r.d0, r.d1, From2(r));
    ShiftByDigit(r.d1, r.d2, From3(r));
    ShiftByDigit(r.d2, r.d3, From4(r));
    ShiftByDigit(r.d3, r.d4, From5(r));
    ShiftByDigit(r.d4, r.d5, From6(r));
    ShiftByDigit(r.d5, r.d6, From7(r));
    ShiftByDigit(r.d6, r.d7, []);
    ShiftTopDigit(r.d7);
    ShiftIsRolled(WordOf(r));
  }

  lemma ShiftIsRolled(w: Word)
    ensures Shift(w) == Rolled(w)
  {
  }

  lemma StepIsFeedBit(r: Register, bit: bool)
    ensures FeedBit(Polynomial(), WordOf(r), bit) == WordOf(Step(r, bit))
  {
    hide Xor, Shift, XorRegister, Shifted;
    PolynomialIs();
    ShiftOfWord(r);
    XorOfWords(Shifted(r), POLYNOMIAL);
  }

  function StepDigit(r: Register, x: Digit): Register
  {
    Step(Step(Step(Step(r, x.a), x.b), x.c), x.d)
  }

  lemma StepsAreFeedBits(r: Register, x: Digit)
    ensures FeedBits(Polynomial(), WordOf(r), BitsOfDigit(x)) == WordOf(StepDigit(r, x))
  {
    hide FeedBit, WordOf, Step;
    var r1 := Step(r, x.a);
    var r2 := Step(r1, x.b);
    var r3 := Step(r2, x.c);
    StepIsFeedBit(r, x.a);
    StepIsFeedBit(r1, x.b);
    StepIsFeedBit(r2, x.c);
    StepIsFeedBit(r3, x.d);
    FourBits(Polynomial(), WordOf(r), x);
  }

  lemma FourBits(p: Word, w: Word, x: Digit)
    ensures FeedBits(p, w, BitsOfDigit(x)) == FeedBit(p, FeedBit(p, FeedBit(p, FeedBit(p, w, x.a), x.b), x.c), x.d)
  {
    var bits := BitsOfDigit(x);
    assert bits[1..] == [x.b, x.c, x.d] && bits[1..][1..] == [x.c, x.d] && bits[1..][1..][1..] == [x.d] && [x.d][1..] == [];
  }

  /** One byte, its digits being `high` and `low`. */
  lemma ByteFed(r: Register, b: byte, low: Digit, high: Digit, s: Register)
    requires b == DigitValue(low) + 16 * DigitValue(high) && StepDigit(StepDigit(r, low), high) == s
    ensures Feed(Polynomial(), WordOf(r), [b]) == WordOf(s)
  {
    hide FeedBit, StepDigit, WordOf;
    var bits := BitsOfDigit(low) + BitsOfDigit(high);
    DigitBits(b, low, high);
    assert BitsOf([b]) == bits by { assert [b][1..] == [] && BitsOf([]) == []; }
    FeedBitsConcat(Polynomial(), WordOf(r), BitsOfDigit(low), BitsOfDigit(high));
    StepsAreFeedBits(r, low);
    StepsAreFeedBits(StepDigit(r, low), high);
  }

  lemma DigitBits(b: byte, low: Digit, high: Digit)
    requires b == DigitValue(low) + 16 * DigitValue(high)
    ensures ByteBits(b) == BitsOfDigit(low) + BitsOfDigit(high)
  {
    var bits := BitsOfDigit(low) + BitsOfDigit(high);
    DigitIsValue(low, BitsOfDigit(high));
    DigitIsValue(high, []);
    assert BitsOfDigit(high) + [] == BitsOfDigit(high);
    BitsRoundTrip(bits);
  }

  // ---- The check value ----

  /** The register before the first digit and after each of the nine. */
  const REGISTERS: seq<Register> := [
    Register(DF, DF, DF, DF, DF, DF, DF, DF),
    Register(D8, D4, D0, D1, D3, D2, DC, D7),
    Register(D2, D3, DB, DB, DC, DA, D0, DB),
    Register(DD, D2, DC, D9, D7, DB, D7, D7),
    Register(DC, D5, DF, D1, DC, D1, D4, D6),
    Register(D3, DE, D5, DC, DA, D0, D4, D3),
    Register(DE, D9, DC, D2, DD, D8, D6, DF),
    Register(D0, D6, D6, D9, DC, DF, DF, DA),
    Register(D0, D5, D5, D2, DF, D1, D5, D6),
    Register(D9, DD, D6, DC, DB, D0, D4, D3)]

  /** The characters '1' to '9'. */
  const DIGITS: Bytes := [0x31, 0x32, 0x33, 0x34, 0x35, 0x36, 0x37, 0x38, 0x39]


  /** Each digit of the message takes the register to the next in the list. */
  lemma RegistersFollow(i: nat)
    requires i < 9
    ensures var x := DIGITS[i];
            Feed(Polynomial(), WordOf(REGISTERS[i]), [x]) == WordOf(REGISTERS[i + 1])
  {
    hide WordOf, Feed;
    var low := [D1, D2, D3, D4, D5, D6, D7, D8, D9][i];
    ByteFed(REGISTERS[i], DIGITS[i], low, D3, REGISTERS[i + 1]);
  }

  lemma {:induction false} RegisterAfter(i: nat)
    requires i <= 9
    ensures Feed(Polynomial(), Ones(32), DIGITS[..i]) == WordOf(REGISTERS[i])
  {
    if i == 0 {
      AllOnes();
      assert DIGITS[..0] == [];
    } else {
      hide Feed, WordOf;
      RegisterAfter(i - 1);
      RegistersFollow(i - 1);
      OneByteMore(DIGITS, i - 1, WordOf(REGISTERS[i - 1]), WordOf(REGISTERS[i]));
    }
  }

  lemma OneByteMore(data: Bytes, i: nat, before: Word, after: Word)
    requires i < |data| && Feed(Polynomial(), Ones(32), data[..i]) == before && Feed(Polynomial(), before, [data[i]]) == after
    ensures Feed(Polynomial(), Ones(32), data[..i + 1]) == after
  {
    hide Feed;
    FeedConcat(Polynomial(), Ones(32), data[..i], [data[i]]);
    assert data[..i + 1] == data[..i] + [data[i]];
  }

  lemma AllOnes()
    ensures Ones(32) == WordOf(Register(DF, DF, DF, DF, DF, DF, DF, DF)) == WordOf(REGISTERS[0])
  {
  }

  /** CRC-32 of "123456789". */
  lemma CheckValue()
    ensures NatOfBits(Checksum(DIGITS)) == 0xCBF43926
  {
    RegisterAfter(9);
    AllOnes();
    var last, ones := REGISTERS[9], REGISTERS[0];
    hide WordOf, Feed;
    assert DIGITS[..9] == DIGITS;
    XorOfWords(last, ones);
    WordHasValue(XorRegister(last, ones));
  }
}
