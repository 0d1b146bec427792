/**
 CRC-32 as the write-ahead log computes it (src/wal/wal.cpp:18-52; section 8 of RFC 1952). A 32-bit word is the
 sequence of its bits, least significant first, so `w >> n` drops the first `n` of them.
 */
module Crc32 {
  import opened Types

  type Bits = seq<bool>
  type Word = w: Bits | |w| == 32 witness Zeros(32)

  function Zeros(n: nat): (w: Bits)
    ensures |w| == n && forall i :: 0 <= i < n ==> !w[i]
  {
    seq(n, i => false)
  }

  function Ones(n: nat): (w: Bits)
    ensures |w| == n && forall i :: 0 <= i < n ==> w[i]
  {
    seq(n, i => true)
  }

  function Xor(a: Bits, b: Bits): (c: Bits)
    requires |a| == |b|
    ensures |c| == |a| && forall i :: 0 <= i < |c| ==> c[i] == (a[i] != b[i])
  {
    seq(|a|, i requires 0 <= i < |a| && |a| == |b| => a[i] != b[i])
  }

  /** The lowest `n` bits of `v`. */
  function BitsOfNat(v: nat, n: nat): (bits: Bits)
    ensures |bits| == n
    decreases n, v
  {
    if n == 0 then [] else [v % 2 == 1] + BitsOfNat(v / 2, n - 1)
  }

  function NatOfBits(bits: Bits): nat
  {
    if bits == [] then 0 else (if bits[0] then 1 else 0) + 2 * NatOfBits(bits[1..])
  }

  function Pow2(n: nat): (p: nat)
    ensures p >= 1
  {
    if n == 0 then 1 else 2 * Pow2(n - 1)
  }

  lemma {:induction false} NatOfBitsBounded(bits: Bits)
    ensures NatOfBits(bits) < Pow2(|bits|)
  {
    if bits != [] {
      NatOfBitsBounded(bits[1..]);
    }
  }

  lemma {:induction false} BitsRoundTrip(bits: Bits)
    ensures BitsOfNat(NatOfBits(bits), |bits|) == bits
  {
    if bits != [] {
      BitsRoundTrip(bits[1..]);
      assert NatOfBits(bits) / 2 == NatOfBits(bits[1..]);
    }
  }

  lemma {:induction false} NatRoundTrip(v: nat, n: nat)
    requires v < Pow2(n)
    ensures NatOfBits(BitsOfNat(v, n)) == v
    decreases n
  {
    if n > 0 {
      NatRoundTrip(v / 2, n - 1);
      assert BitsOfNat(v, n)[1..] == BitsOfNat(v / 2, n - 1);
    }
  }

  lemma {:induction false} ValueConcat(a: Bits, b: Bits)
    ensures NatOfBits(a + b) == NatOfBits(a) + Pow2(|a|) * NatOfBits(b)
    decreases |a|
  {
    if a == [] {
      assert a + b == b;
    } else {
      assert (a + b)[1..] == a[1..] + b;
      ValueConcat(a[1..], b);
      FirstBit(a);
      FirstBit(a + b);
      Doubled(Pow2(|a| - 1), NatOfBits(b));
      hide NatOfBits;
      assert Pow2(|a|) == 2 * Pow2(|a| - 1);
    }
  }

  lemma FirstBit(bits: Bits)
    requires bits != []
    ensures NatOfBits(bits) == (if bits[0] then 1 else 0) + 2 * NatOfBits(bits[1..])
  {
  }

  lemma Doubled(p: nat, x: nat)
    ensures 2 * (p * x) == (2 * p) * x
  {
  }

  function ByteBits(b: byte): (bits: Bits)
    ensures |bits| == 8
  {
    BitsOfNat(b, 8)
  }

  lemma Pow2Of8()
    ensures Pow2(8) == 256
  {
    assert Pow2(4) == 16;
  }

  function ByteOf(bits: Bits): byte
    requires |bits| == 8
  {
    NatOfBitsBounded(bits);
    Pow2Of8();
    NatOfBits(bits)
  }

  lemma ByteRoundTrip(bits: Bits, b: byte)
    requires |bits| == 8
    ensures ByteBits(ByteOf(bits)) == bits && ByteOf(ByteBits(b)) == b
  {
    BitsRoundTrip(bits);
    Pow2Of8();
    NatRoundTrip(b, 8);
  }

  /** The generator polynomial, its bits reversed and the leading one dropped. */
  const GENERATOR: nat := 0xEDB88320

  lemma NatOfBitsInjective(a: Bits, b: Bits)
    requires |a| == |b| && NatOfBits(a) == NatOfBits(b)
    ensures a == b
  {
    BitsRoundTrip(a);
    BitsRoundTrip(b);
  }

  lemma GeneratorFits()
    ensures GENERATOR < Pow2(32) && GENERATOR >= Pow2(31)
  {
    assert Pow2(4) == 0x10;
    assert Pow2(8) == 0x100;
    assert Pow2(12) == 0x1000;
    assert Pow2(16) == 0x1_0000;
    assert Pow2(20) == 0x10_0000;
    assert Pow2(24) == 0x100_0000;
    assert Pow2(28) == 0x1000_0000;
  }

  /** There is exactly one word of that value. */
  lemma OneGenerator()
    ensures exists w: Word :: NatOfBits(w) == GENERATOR
    ensures forall v: Word, w: Word :: NatOfBits(v) == GENERATOR && NatOfBits(w) == GENERATOR ==> v == w
  {
    GeneratorFits();
    NatRoundTrip(GENERATOR, 32);
    forall v: Word, w: Word | NatOfBits(v) == GENERATOR && NatOfBits(w) == GENERATOR
      ensures v == w
    {
      NatOfBitsInjective(v, w);
    }
  }

  /** The word with the bits of 0xEDB88320. */
  function Polynomial(): (w: Word)
    ensures NatOfBits(w) == GENERATOR
  {
    OneGenerator();
    var w: Word :| NatOfBits(w) == GENERATOR;
    w
  }

  // ---- The reference: long division by a polynomial `p`, one message bit at a time ----

  function Shift(w: Word): Word
  {
    w[1..] + [false]
  }

  function FeedBit(p: Word, w: Word, bit: bool): Word
  {
    if w[0] != bit then Xor(Shift(w), p) else Shift(w)
  }

  function FeedBits(p: Word, w: Word, bits: Bits): Word
    decreases |bits|
  {
    if bits == [] then w else FeedBits(p, FeedBit(p, w, bits[0]), bits[1..])
  }

  function BitsOf(data: Bytes): (bits: Bits)
    ensures |bits| == 8 * |data|
  {
    if data == [] then [] else ByteBits(data[0]) + BitsOf(data[1..])
  }

  /** The register after `data`, one bit at a time. */
  function Feed(p: Word, w: Word, data: Bytes): Word
  {
    FeedBits(p, w, BitsOf(data))
  }

  /** CRC-32: the register starts at all ones and is complemented at the end. */
  function Checksum(data: Bytes): Word
  {
    Xor(Feed(Polynomial(), Ones(32), data), Ones(32))
  }

  lemma {:induction false} FeedBitsConcat(p: Word, w: Word, a: Bits, b: Bits)
    ensures FeedBits(p, w, a + b) == FeedBits(p, FeedBits(p, w, a), b)
    decreases |a|
  {
    if a == [] {
      assert a + b == b;
    } else {
      assert (a + b)[1..] == a[1..] + b;
      FeedBitsConcat(p, FeedBit(p, w, a[0]), a[1..], b);
    }
  }

  lemma {:induction false} BitsOfConcat(a: Bytes, b: Bytes)
    ensures BitsOf(a + b) == BitsOf(a) + BitsOf(b)
  {
    if a == [] {
      assert a + b == b;
    } else {
      assert (a + b)[1..] == a[1..] + b;
      BitsOfConcat(a[1..], b);
    }
  }

  /** The register can be advanced piece by piece. */
  lemma FeedConcat(p: Word, w: Word, a: Bytes, b: Bytes)
    ensures Feed(p, w, a + b) == Feed(p, Feed(p, w, a), b)
  {
    BitsOfConcat(a, b);
    FeedBitsConcat(p, w, BitsOf(a), BitsOf(b));
  }

  // ---- Every step can be undone when the polynomial has its last bit ----

  function UnfeedBit(p: Word, w: Word, bit: bool): Word
  {
    if w[31] then [!bit] + Xor(w, p)[..31] else [bit] + w[..31]
  }

  lemma UnfeedsFed(p: Word, w: Word, bit: bool)
    requires p[31]
    ensures UnfeedBit(p, FeedBit(p, w, bit), bit) == w
  {
    var fed := FeedBit(p, w, bit);
    assert fed[31] <==> w[0] != bit;
    assert (if fed[31] then Xor(fed, p)[..31] else fed[..31]) == w[1..];
  }

  lemma FeedsUnfed(p: Word, w: Word, bit: bool)
    requires p[31]
    ensures FeedBit(p, UnfeedBit(p, w, bit), bit) == w
  {
    var u := UnfeedBit(p, w, bit);
    assert u[0] != bit <==> w[31];
    assert Shift(u) == (if w[31] then Xor(w, p) else w);
  }

  function UnfeedBits(p: Word, w: Word, bits: Bits): Word
    decreases |bits|
  {
    if bits == [] then w else UnfeedBit(p, UnfeedBits(p, w, bits[1..]), bits[0])
  }

  /** For each message the register it leads to determines the one it started from, and every register is reached. */
  lemma {:induction false} FeedBitsBijective(p: Word, w: Word, bits: Bits)
    requires p[31]
    ensures UnfeedBits(p, FeedBits(p, w, bits), bits) == w && FeedBits(p, UnfeedBits(p, w, bits), bits) == w
    decreases |bits|
  {
    if bits != [] {
      UnfeedsFed(p, w, bits[0]);
      FeedBitsBijective(p, FeedBit(p, w, bits[0]), bits[1..]);
      FeedsUnfed(p, UnfeedBits(p, w, bits[1..]), bits[0]);
      FeedBitsBijective(p, w, bits[1..]);
    }
  }

  // ---- Short messages act on the register by exclusive or ----

  /** Division steps without a message bit. */
  function Steps(p: Word, w: Word, n: nat): Word
    decreases n, |w|
  {
    if n == 0 then w else Steps(p, FeedBit(p, w, false), n - 1)
  }

  /** `bits` in the low end of a word. */
  function Padded(bits: Bits): Word
    requires |bits| <= 32
  {
    bits + Zeros(32 - |bits|)
  }

  lemma {:induction false} FeedBitsIsSteps(p: Word, w: Word, bits: Bits)
    requires |bits| <= 32
    ensures FeedBits(p, w, bits) == Steps(p, Xor(w, Padded(bits)), |bits|)
    decreases |bits|
  {
    if bits == [] {
      assert Xor(w, Padded(bits)) == w;
    } else {
      FeedBitsIsSteps(p, FeedBit(p, w, bits[0]), bits[1..]);
      assert FeedBit(p, Xor(w, Padded(bits)), false) == Xor(FeedBit(p, w, bits[0]), Padded(bits[1..]));
    }
  }

  lemma {:induction false} StepsInjective(p: Word, a: Word, b: Word, n: nat)
    requires p[31] && Steps(p, a, n) == Steps(p, b, n)
    ensures a == b
    decreases n
  {
    if n > 0 {
      StepsInjective(p, FeedBit(p, a, false), FeedBit(p, b, false), n - 1);
      UnfeedsFed(p, a, false);
      UnfeedsFed(p, b, false);
    }
  }

  /** From one register, different messages of the same length up to 32 bits lead to different registers. */
  lemma ShortMessagesDiffer(p: Word, w: Word, a: Bits, b: Bits)
    requires p[31] && |a| == |b| <= 32 && a != b
    ensures FeedBits(p, w, a) != FeedBits(p, w, b)
  {
    FeedBitsIsSteps(p, w, a);
    FeedBitsIsSteps(p, w, b);
    if FeedBits(p, w, a) == FeedBits(p, w, b) {
      StepsInjective(p, Xor(w, Padded(a)), Xor(w, Padded(b)), |a|);
      XorPaddedInjective(w, a, b);
    }
  }

  lemma XorPaddedInjective(w: Word, a: Bits, b: Bits)
    requires |a| == |b| <= 32
    ensures Xor(w, Padded(a)) == Xor(w, Padded(b)) ==> a == b
  {
    if a != b {
      var i :| 0 <= i < |a| && a[i] != b[i];
      assert Padded(a)[i] != Padded(b)[i];
      assert Xor(w, Padded(a))[i] != Xor(w, Padded(b))[i];
    }
  }

  /** A change confined to 32 consecutive bits always changes the register. */
  lemma BurstDetected(p: Word, w: Word, before: Bits, a: Bits, b: Bits, after: Bits)
    requires p[31] && |a| == |b| <= 32 && a != b
    ensures FeedBits(p, w, before + a + after) != FeedBits(p, w, before + b + after)
  {
    var r := FeedBits(p, w, before);
    ShortMessagesDiffer(p, r, a, b);
    FeedBitsConcat(p, w, before + a, after);
    FeedBitsConcat(p, w, before + b, after);
    FeedBitsConcat(p, w, before, a);
    FeedBitsConcat(p, w, before, b);
    FeedBitsBijective(p, FeedBits(p, r, a), after);
    FeedBitsBijective(p, FeedBits(p, r, b), after);
  }

  lemma {:induction false} BitsOfInjective(a: Bytes, b: Bytes)
    requires |a| == |b| && BitsOf(a) == BitsOf(b)
    ensures a == b
  {
    if a != [] {
      assert ByteBits(a[0]) == BitsOf(a)[..8] == ByteBits(b[0]);
      assert BitsOf(a[1..]) == BitsOf(a)[8..] == BitsOf(b[1..]);
      ByteRoundTrip(Zeros(8), a[0]);
      ByteRoundTrip(Zeros(8), b[0]);
      BitsOfInjective(a[1..], b[1..]);
    }
  }

  lemma BytesBurst(p: Word, before: Bytes, a: Bytes, b: Bytes, after: Bytes)
    requires p[31] && |a| == |b| <= 4 && a != b
    ensures Feed(p, Ones(32), before + a + after) != Feed(p, Ones(32), before + b + after)
  {
    if BitsOf(a) == BitsOf(b) {
      BitsOfInjective(a, b);
    }
    BitsOfConcat(before + a, after);
    BitsOfConcat(before + b, after);
    BitsOfConcat(before, a);
    BitsOfConcat(before, b);
    BurstDetected(p, Ones(32), BitsOf(before), BitsOf(a), BitsOf(b), BitsOf(after));
  }

  lemma XorOnesInjective(a: Word, b: Word)
    ensures Xor(a, Ones(32)) == Xor(b, Ones(32)) ==> a == b
  {
    if a != b {
      var i :| 0 <= i < 32 && a[i] != b[i];
      assert Xor(a, Ones(32))[i] != Xor(b, Ones(32))[i];
    }
  }

  lemma {:induction false} HighZero(bits: Bits)
    ensures NatOfBits(bits + [false]) == NatOfBits(bits)
  {
    if bits == [] {
      assert [] + [false] == [false];
    } else {
      assert (bits + [false])[1..] == bits[1..] + [false];
      HighZero(bits[1..]);
    }
  }

  lemma PolynomialTop()
    ensures Polynomial()[31]
  {
    var p := Polynomial();
    if !p[31] {
      assert p == p[..31] + [false];
      HighZero(p[..31]);
      NatOfBitsBounded(p[..31]);
      GeneratorFits();
    }
  }

  /** For each byte the register step is a bijection: no two registers lead to the same one, and every one is reached. */
  lemma ByteStepBijective(w: Word, v: Word, b: byte)
    ensures Feed(Polynomial(), w, [b]) == Feed(Polynomial(), v, [b]) ==> w == v
    ensures exists u: Word :: Feed(Polynomial(), u, [b]) == w
  {
    PolynomialTop();
    FeedBijective(Polynomial(), w, v, [b]);
  }

  lemma FeedBijective(p: Word, w: Word, v: Word, data: Bytes)
    requires p[31]
    ensures Feed(p, w, data) == Feed(p, v, data) ==> w == v
    ensures exists u: Word :: Feed(p, u, data) == w
  {
    FeedBitsBijective(p, w, BitsOf(data));
    FeedBitsBijective(p, v, BitsOf(data));
    assert Feed(p, UnfeedBits(p, w, BitsOf(data)), data) == w;
  }

  /** A change confined to at most four consecutive bytes always changes the checksum. */
  lemma FourBytesDetected(before: Bytes, a: Bytes, b: Bytes, after: Bytes)
    requires |a| == |b| <= 4 && a != b
    ensures Checksum(before + a + after) != Checksum(before + b + after)
  {
    PolynomialTop();
    BytesBurst(Polynomial(), before, a, b, after);
    XorOnesInjective(Feed(Polynomial(), Ones(32), before + a + after), Feed(Polynomial(), Ones(32), before + b + after));
  }

  // ---- The table ----

  function TableEntry(p: Word, i: byte): Word
  {
    Steps(p, Padded(ByteBits(i)), 8)
  }

  lemma StepLinear(p: Word, a: Word, b: Word)
    ensures FeedBit(p, Xor(a, b), false) == Xor(FeedBit(p, a, false), FeedBit(p, b, false))
  {
    assert Shift(Xor(a, b)) == Xor(Shift(a), Shift(b));
    assert FeedBit(p, Xor(a, b), false) == Xor(FeedBit(p, a, false), FeedBit(p, b, false));
  }

  lemma {:induction false} StepsLinear(p: Word, a: Word, b: Word, n: nat)
    ensures Steps(p, Xor(a, b), n) == Xor(Steps(p, a, n), Steps(p, b, n))
    decreases n
  {
    if n > 0 {
      StepLinear(p, a, b);
      StepsLinear(p, FeedBit(p, a, false), FeedBit(p, b, false), n - 1);
    }
  }

  /** While only zeros reach the low end, steps are shifts. */
  lemma {:induction false} StepsOfZeros(p: Word, high: Bits, n: nat)
    requires |high| + n <= 32
    ensures Steps(p, Zeros(n) + high + Zeros(32 - n - |high|), n) == Padded(high)
    decreases n
  {
    if n == 0 {
      assert Zeros(0) + high == high;
    } else {
      StepsOfZeros(p, high, n - 1);
      assert FeedBit(p, Zeros(n) + high + Zeros(32 - n - |high|), false) == Zeros(n - 1) + high + Zeros(32 - (n - 1) - |high|);
    }
  }

  /** What one turn of `Update`'s loop computes with the table. */
  function TableStep(p: Word, w: Word, b: byte): Word
  {
    Xor(TableEntry(p, ByteOf(Xor(w[..8], ByteBits(b)))), Padded(w[8..]))
  }

  /** Eight steps split into what the low byte decides and what is only shifted. */
  lemma EightSteps(p: Word, w: Word, low: Bits)
    requires |low| == 8
    ensures Steps(p, low + w[8..], 8) == Xor(Steps(p, Padded(low), 8), Padded(w[8..]))
  {
    var high := Zeros(8) + w[8..];
    assert low + w[8..] == Xor(Padded(low), high);
    StepsLinear(p, Padded(low), high, 8);
    StepsOfZeros(p, w[8..], 8);
    assert Zeros(8) + w[8..] + Zeros(0) == high;
  }

  /** One table look-up does eight division steps. */
  lemma TableStepDivides(p: Word, w: Word, b: byte)
    ensures TableStep(p, w, b) == FeedBits(p, w, ByteBits(b))
  {
    var bits := ByteBits(b);
    var low := Xor(w[..8], bits);
    ByteRoundTrip(low, b);
    FeedBitsIsSteps(p, w, bits);
    assert Xor(w, Padded(bits)) == low + w[8..];
    EightSteps(p, w, low);
  }

  /** One entry of the table: eight division steps on its index. */
  method Entry(p: Word, i: byte) returns (crc: Word)
    ensures crc == TableEntry(p, i)
  {
    crc := Padded(ByteBits(i));
    var j := 0;
    while j < 8
      invariant 0 <= j <= 8 && Steps(p, crc, 8 - j) == TableEntry(p, i)
    {
      if crc[0] {
        crc := Xor(Shift(crc), p);
      } else {
        crc := Shift(crc);
      }
      j := j + 1;
    }
  }

  method InitTable(table: array<Word>)
    requires table.Length == 256
    modifies table
    ensures forall i :: 0 <= i < 256 ==> table[i] == TableEntry(Polynomial(), i)
  {
    var i := 0;
    while i < 256
      invariant 0 <= i <= 256
      invariant forall k :: 0 <= k < i ==> table[k] == TableEntry(Polynomial(), k)
    {
      var crc := Entry(Polynomial(), i);
      table[i] := crc;
      i := i + 1;
    }
  }

  /** The `CRC32` object. Its table is a static of the class in the source; here each object fills its own. */
  class Crc {
    var crc: Word
    const table: array<Word>

    ghost predicate Valid()
      reads this, table
    {
      table.Length == 256 && forall i :: 0 <= i < 256 ==> table[i] == TableEntry(Polynomial(), i)
    }

    constructor ()
      ensures Valid() && crc == Ones(32) && fresh(table)
    {
      crc := Ones(32);
      table := new Word[256];
      new;
      InitTable(table);
    }

    /** The table-driven loop computes the bit-at-a-time division. */
    method Update(data: Bytes)
      requires Valid()
      modifies this`crc
      ensures Valid() && crc == Feed(Polynomial(), old(crc), data)
    {
      var i := 0;
      assert data[..0] == [];
      while i < |data|
        invariant 0 <= i <= |data| && crc == Feed(Polynomial(), old(crc), data[..i])
      {
        FeedsOneMore(Polynomial(), old(crc), data, i);
        crc := Xor(table[ByteOf(Xor(crc[..8], ByteBits(data[i])))], Padded(crc[8..]));
        i := i + 1;
      }
      assert data[..|data|] == data;
    }

    method Final() returns (r: Word)
      ensures r == Xor(crc, Ones(32))
    {
      r := Xor(crc, Ones(32));
    }
  }

  lemma FeedsOneMore(p: Word, w: Word, data: Bytes, i: nat)
    requires i < |data|
    ensures Feed(p, w, data[..i + 1]) == TableStep(p, Feed(p, w, data[..i]), data[i])
  {
    assert data[..i + 1] == data[..i] + [data[i]];
    FeedConcat(p, w, data[..i], [data[i]]);
    assert BitsOf([data[i]]) == ByteBits(data[i]);
    TableStepDivides(p, Feed(p, w, data[..i]), data[i]);
  }

  method Compute(data: Bytes) returns (r: Word)
    ensures r == Checksum(data)
  {
    var c := new Crc();
    c.Update(data);
    r := c.Final();
  }
}
