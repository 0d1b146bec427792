/** Fixed-width unsigned integers as bytes, in both byte orders the source's formats use. */
module ByteOrder {
  import opened Types

  /** 256 to the power `n`. */
  function Span(n: nat): (p: nat)
    ensures p >= 1
  {
    if n == 0 then 1 else 256 * Span(n - 1)
  }

  /** The `n` bytes of `v`, least significant first; higher bytes of `v` are cut off as a cast does. */
  function Le(v: nat, n: nat): (s: Bytes)
    ensures |s| == n
    decreases n, v
  {
    if n == 0 then [] else [v % 256] + Le(v / 256, n - 1)
  }

  function FromLe(s: Bytes): nat
  {
    if s == [] then 0 else s[0] + 256 * FromLe(s[1..])
  }

  lemma {:induction false} LeRoundTrip(v: nat, n: nat)
    requires v < Span(n)
    ensures FromLe(Le(v, n)) == v
    decreases n
  {
    if n > 0 {
      LeRoundTrip(v / 256, n - 1);
      assert Le(v, n)[1..] == Le(v / 256, n - 1);
    }
  }

  lemma {:induction false} FromLeBounded(s: Bytes)
    ensures FromLe(s) < Span(|s|)
  {
    if s != [] {
      FromLeBounded(s[1..]);
    }
  }

  lemma {:induction false} FromLeRoundTrip(s: Bytes)
    ensures Le(FromLe(s), |s|) == s
  {
    if s != [] {
      FromLeRoundTrip(s[1..]);
      assert FromLe(s) / 256 == FromLe(s[1..]);
    }
  }

  /** The `n` bytes of `v`, most significant first. */
  function Be(v: nat, n: nat): (s: Bytes)
    ensures |s| == n
    decreases n, v
  {
    if n == 0 then [] else Be(v / 256, n - 1) + [v % 256]
  }

  function FromBe(s: Bytes): nat
  {
    if s == [] then 0 else 256 * FromBe(s[..|s| - 1]) + s[|s| - 1]
  }

  lemma {:induction false} BeRoundTrip(v: nat, n: nat)
    requires v < Span(n)
    ensures FromBe(Be(v, n)) == v
    decreases n
  {
    if n > 0 {
      BeRoundTrip(v / 256, n - 1);
      assert Be(v, n)[..n - 1] == Be(v / 256, n - 1);
    }
  }

  lemma Spans()
    ensures Span(1) == 0x100 && Span(4) == 0x1_0000_0000 && Span(8) == 0x1_0000_0000_0000_0000
  {
    assert Span(2) == 0x1_0000;
    assert Span(4) == 256 * (256 * Span(2));
    assert Span(6) == 256 * (256 * Span(4));
  }

  const TWO_TO_63 := 0x8000_0000_0000_0000
  const TWO_TO_64 := 0x1_0000_0000_0000_0000

  /** `static_cast<uint64_t>` of an `int64_t`. */
  function Unsigned(v: int): nat
    requires -TWO_TO_63 <= v < TWO_TO_63
  {
    if v < 0 then v + TWO_TO_64 else v
  }

  /** `static_cast<int64_t>` of a `uint64_t`. */
  function Signed(v: nat): int
  {
    var w := v % TWO_TO_64;
    if w < TWO_TO_63 then w else w - TWO_TO_64
  }

  /** The cast keeps the value up to a multiple of 2 to the 64, so negative numbers are in two's complement. */
  lemma CastKeepsResidue(v: int)
    requires -TWO_TO_63 <= v < TWO_TO_63
    ensures 0 <= Unsigned(v) < TWO_TO_64 && (Unsigned(v) == v || Unsigned(v) == v + TWO_TO_64) && Signed(Unsigned(v)) == v
  {
  }

  /** A string with its 32-bit length. */
  function Str(s: Bytes): Bytes
  {
    Le(|s|, 4) + s
  }
}
