/** CRC-16/CCITT-FALSE as src/safety/e2e.cpp computes it, and why its step loses nothing. */
module Crc16 {
  import opened Bytes
  import opened BitMath

  /** uint16_t */
  type word = x: int | 0 <= x < 0x10000

  const POLY: word := 0x1021
  const INIT: word := 0xFFFF
  const OCTET: nat := 8

  // ---------------------------------------------------------------- the register

  function XorWord(a: word, b: word): word {
    Pow2Values();
    HighBit(a, b, 16);
    Xor(a, b)
  }

  lemma Pow2Values()
    ensures Pow2(8) == 0x100 && Pow2(9) == 0x200 && Pow2(10) == 0x400 && Pow2(11) == 0x800
    ensures Pow2(12) == 0x1000 && Pow2(13) == 0x2000 && Pow2(14) == 0x4000
    ensures Pow2(15) == 0x8000 && Pow2(16) == 0x10000
  {
    assert Pow2(4) == 16;
    assert Pow2(8) == 256;
    assert Pow2(12) == 0x1000;
  }

  /** One turn of the inner loop: shift the register left, folding the bit that
      falls out back in. */
  function Shift(crc: word): word {
    if crc >= 0x8000 then XorWord(2 * crc - 0x10000, POLY) else 2 * crc
  }

  function ShiftN(crc: word, n: nat): word {
    if n == 0 then crc else Shift(ShiftN(crc, n - 1))
  }

  /** One turn of the outer loop. */
  function Absorb(crc: word, b: byte): word {
    ShiftN(XorWord(crc, 256 * b), 8)
  }

  /** The register after the octets of data. */
  function Fold(crc: word, data: seq<byte>): word {
    if data == [] then crc else Absorb(Fold(crc, data[..|data| - 1]), data[|data| - 1])
  }

  function Crc(data: seq<byte>): word { Fold(INIT, data) }

  lemma {:induction false} FoldConcat(crc: word, a: seq<byte>, b: seq<byte>)
    ensures Fold(crc, a + b) == Fold(Fold(crc, a), b)
    decreases |b|
  {
    if b == [] {
      assert a + b == a;
    } else {
      var ab := a + b;
      assert ab[..|ab| - 1] == a + b[..|b| - 1];
      FoldConcat(crc, a, b[..|b| - 1]);
    }
  }

  /** The inner loop shared by crc16 and by both halves of build_header. */
  method AbsorbByte(crc0: word, b: byte) returns (crc: word)
    ensures crc == Absorb(crc0, b)
  {
    crc := XorWord(crc0, b * 256);
    ghost var start := crc;
    for j := 0 to 8
      invariant crc == ShiftN(start, j)
    {
      crc := if crc >= 0x8000 then XorWord(2 * crc - 0x10000, POLY) else 2 * crc;
    }
  }

  method Compute(data: seq<byte>) returns (crc: word)
    ensures crc == Crc(data)
  {
    crc := INIT;
    for i := 0 to |data|
      invariant crc == Fold(INIT, data[..i])
    {
      assert data[..i + 1][..i] == data[..i];
      crc := AbsorbByte(crc, data[i]);
    }
    assert data[..|data|] == data;
  }

  // ---------------------------------------------------------------- the step loses nothing

  lemma ShiftParity(a: word)
    ensures Shift(a) % 2 == 1 <==> a >= 0x8000
  {
    if a >= 0x8000 {
      LowBit(2 * a - 0x10000, POLY);
    }
  }

  /** The zero-input step is injective: the polynomial is odd, so the low bit
      tells which branch was taken. */
  lemma ShiftInjective(a: word, b: word)
    requires Shift(a) == Shift(b)
    ensures a == b
  {
    ShiftParity(a);
    ShiftParity(b);
    if a >= 0x8000 {
      Cancel(2 * a - 0x10000, 2 * b - 0x10000, POLY);
    }
  }

  lemma {:induction false} ShiftNInjective(a: word, b: word, n: nat)
    requires ShiftN(a, n) == ShiftN(b, n)
    ensures a == b
  {
    if n > 0 {
      ShiftInjective(ShiftN(a, n - 1), ShiftN(b, n - 1));
      ShiftNInjective(a, b, n - 1);
    }
  }

  lemma {:induction false} ShiftNCommutes(crc: word, n: nat)
    ensures ShiftN(Shift(crc), n) == ShiftN(crc, n + 1)
  {
    if n > 0 {
      ShiftNCommutes(crc, n - 1);
    }
  }

  lemma XorBelowTop(u: word, v: nat)
    requires v < 0x8000
    ensures XorWord(u, v) == if u >= 0x8000 then 0x8000 + Xor(u - 0x8000, v) else Xor(u, v)
    ensures Xor(if u >= 0x8000 then u - 0x8000 else u, v) < 0x8000
  {
    Pow2Values();
    HighBit(if u >= 0x8000 then u - 0x8000 else u, v, 15);
  }

  lemma XorDoubles(a: nat, b: nat)
    ensures Xor(2 * a, 2 * b) == 2 * Xor(a, b)
  {
  }

  lemma ShiftAddsCarrying(low: nat, v: nat)
    requires low < 0x8000 && v < 0x8000
    ensures Xor(2 * Xor(low, v), POLY) == Xor(Xor(2 * low, POLY), 2 * v)
  {
    XorDoubles(low, v);
    Swap(2 * low, 2 * v, POLY);
  }

  /** Adding v below the top bit before a shift is adding 2 * v after it. */
  lemma ShiftAdds(u: word, v: nat)
    requires v < 0x8000
    ensures Shift(XorWord(u, v)) == XorWord(Shift(u), 2 * v)
  {
    XorBelowTop(u, v);
    if u >= 0x8000 {
      ShiftAddsCarrying(u - 0x8000, v);
    } else {
      XorDoubles(u, v);
    }
  }
}
