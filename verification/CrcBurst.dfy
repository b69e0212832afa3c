/** Why the CRC (src/safety/e2e.cpp) detects every error burst that fits its register. */
module CrcBurst {
  import opened Bytes
  import opened BitMath
  import opened Crc16
  import opened CrcBits
  import opened Sequences

  /** u and v agree outside the 16 bits that start at bit p. */
  predicate AgreeOutside(u: seq<bool>, v: seq<bool>, p: nat) {
    && |u| == |v| && p + 16 <= |u|
    && u[..p] == v[..p] && u[p + 16..] == v[p + 16..]
  }

  lemma {:induction false} FoldBitsInjective(a: word, b: word, bits: seq<bool>)
    requires a != b
    ensures FoldBits(a, bits) != FoldBits(b, bits)
    decreases |bits|
  {
    if bits != [] {
      var x := Bit(bits[0]);
      if BitStep(a, bits[0]) == BitStep(b, bits[0]) {
        ShiftInjective(XorWord(a, x), XorWord(b, x));
        Cancel(a, b, x);
      }
      FoldBitsInjective(BitStep(a, bits[0]), BitStep(b, bits[0]), bits[1..]);
    }
  }

  lemma CutWindow(u: seq<bool>, p: nat)
    requires p + 16 <= |u|
    ensures u == u[..p] + u[p..p + 16] + u[p + 16..]
  {
  }

  /** Two different streams that agree outside 16 consecutive bits never share a
      checksum, wherever the bits are and whatever surrounds them. */
  lemma BurstChangesCrc(r: word, u: seq<byte>, v: seq<byte>, p: nat)
    requires AgreeOutside(Bits(u), Bits(v), p) && u != v
    ensures Fold(r, u) != Fold(r, v)
  {
    var bu, bv := Bits(u), Bits(v);
    FoldIsSerial(r, u);
    FoldIsSerial(r, v);
    CutWindow(bu, p);
    CutWindow(bv, p);
    if bu[p..p + 16] == bv[p..p + 16] {
      assert bu == bv;
      BitsInjective(u, v);
    }
    WindowChangesFold(r, bu[..p], bu[p..p + 16], bv[p..p + 16], bu[p + 16..]);
  }

  lemma WindowChangesFold(r: word, pre: seq<bool>, w1: seq<bool>, w2: seq<bool>, post: seq<bool>)
    requires |w1| == |w2| <= 16 && w1 != w2
    ensures FoldBits(r, pre + w1 + post) != FoldBits(r, pre + w2 + post)
  {
    var s := FoldBits(r, pre);
    FoldBitsConcat(r, pre, w1);
    FoldBitsConcat(r, pre, w2);
    FoldBitsConcat(r, pre + w1, post);
    FoldBitsConcat(r, pre + w2, post);
    WindowAtOnce(s, w1);
    WindowAtOnce(s, w2);
    if FoldBits(s, w1) == FoldBits(s, w2) {
      ShiftNInjective(XorWord(s, Window(w1)), XorWord(s, Window(w2)), |w1|);
      Commutes(s, Window(w1));
      Commutes(s, Window(w2));
      Cancel(Window(w1), Window(w2), s);
      TopInjective(w1, w2, 0);
    }
    FoldBitsInjective(FoldBits(s, w1), FoldBits(s, w2), post);
  }

  /** Sixteen bits is the exact limit: a 17-bit pattern shaped like the generator
      (the leading bit flipped, the next 16 changed by POLY) goes unnoticed. */
  lemma SeventeenBitsCancel(r: word, t1: seq<bool>, t2: seq<bool>)
    requires |t1| == |t2| == 16 && Window(t2) == XorWord(Window(t1), POLY)
    ensures FoldBits(r, [false] + t1) == FoldBits(r, [true] + t2)
  {
    assert ([false] + t1)[1..] == t1 && ([true] + t2)[1..] == t2;
    Zero(r);
    LeadingBitFlips(r);
    var s1 := BitStep(r, false);
    WindowAtOnce(s1, t1);
    WindowAtOnce(XorWord(s1, POLY), t2);
    Commutes(Window(t1), POLY);
    Associates(s1, POLY, Window(t2));
    Associates(POLY, POLY, Window(t1));
    Self(POLY);
    Commutes(0, Window(t1));
    Zero(Window(t1));
  }

  lemma LeadingBitFlips(r: word)
    ensures BitStep(r, true) == XorWord(BitStep(r, false), POLY)
  {
    Pow2Values();
    Zero(r);
    var low := if r >= 0x8000 then r - 0x8000 else r;
    HighBit(low, 0, 15);
    Commutes(r, 0x8000);
    HighBit(0, low, 15);
    Commutes(0, low);
    Zero(low);
    if r >= 0x8000 {
      Associates(0x8000, 0x8000, low);
      Self(0x8000);
      HighBit(low, 0, 15);
      Associates(2 * low, POLY, POLY);
      Self(POLY);
      Zero(2 * low);
    }
  }

  // ---------------------------------------------------------------- a burst that escapes

  /** 24 clear bits, and the same after the generator's 17 bits were added at the end. */
  const CLEAN: seq<byte> := [0, 0, 0]
  const STRUCK: seq<byte> := [0x01, 0x10, 0x21]

  lemma BitsOfOne(a: byte)
    ensures Bits([a]) == ByteBits(a)
  {
    BitsOfSnoc([], a);
    assert [] + [a] == [a] && Bits([]) + ByteBits(a) == ByteBits(a);
  }

  lemma BitsOfTwo(a: byte, b: byte)
    ensures Bits([a, b]) == ByteBits(a) + ByteBits(b)
  {
    BitsOfOne(a);
    BitsOfSnoc([a], b);
    assert [a] + [b] == [a, b];
  }

  lemma BitsOfThree(a: byte, b: byte, c: byte)
    ensures Bits([a, b, c]) == ByteBits(a) + (ByteBits(b) + ByteBits(c))
  {
    BitsOfTwo(a, b);
    BitsOfSnoc([a, b], c);
    assert [a, b] + [c] == [a, b, c];
    ConcatAssociates(ByteBits(a), ByteBits(b), ByteBits(c));
  }

  /** Two numbers side by side are one. */
  lemma {:induction false} NumberBitsJoin(x: nat, y: nat, n: nat, k: nat)
    requires y < Pow2(k)
    ensures NumberBits(x * Pow2(k) + y, n + k) == NumberBits(x, n) + NumberBits(y, k)
    decreases k
  {
    if k == 0 {
      assert NumberBits(x, n) + [] == NumberBits(x, n);
    } else {
      var p := Pow2(k - 1);
      assert x * Pow2(k) == 2 * (x * p);
      assert (2 * (x * p) + y) / 2 == x * p + y / 2 && (2 * (x * p) + y) % 2 == y % 2;
      NumberBitsJoin(x, y / 2, n, k - 1);
      ConcatAssociates(NumberBits(x, n), NumberBits(y / 2, k - 1), [y % 2 == 1]);
    }
  }

  lemma TopOfTwo(a: byte, b: byte, k: nat)
    requires k + k == 16 && Pow2(k) == 256
    ensures |NumberBits(a, k) + NumberBits(b, k)| == 16 && Top(NumberBits(a, k) + NumberBits(b, k), 0) == Joined(a, b)
  {
    NumberBitsJoin(a, b, k, k);
    Pow2Values();
    TopOfNumber(Joined(a, b), k + k);
  }

  function Joined(a: int, b: int): int { a * 256 + b }

  lemma WindowOfTwo(a: byte, b: byte)
    ensures Window(ByteBits(a) + ByteBits(b)) == Joined(a, b)
  {
    Pow2Values();
    TopOfTwo(a, b, OCTET);
  }

  /** The low bit of an octet stands last. */
  lemma LowBitLast(b: byte)
    ensures ByteBits(b) == NumberBits(b / 2, OCTET - 1) + [b % 2 == 1]
  {
  }

  lemma LeadingAndWindow(x: byte, a: byte, b: byte, r: word)
    ensures FoldBits(r, Bits([x, a, b]))
      == FoldBits(FoldBits(r, NumberBits(x / 2, OCTET - 1)), [x % 2 == 1] + (ByteBits(a) + ByteBits(b)))
  {
    var front, bit, window := NumberBits(x / 2, OCTET - 1), [x % 2 == 1], ByteBits(a) + ByteBits(b);
    BitsOfThree(x, a, b);
    LowBitLast(x);
    ConcatAssociates(front, bit, window);
    FoldBitsConcat(r, front, bit + window);
  }

  /** The two differ in their last 17 bits at most. */
  lemma StruckAgreesBefore()
    ensures Bits(CLEAN)[..7] == Bits(STRUCK)[..7] && |Bits(CLEAN)| == |Bits(STRUCK)| == 24
  {
    BitsOfThree(0, 0, 0);
    BitsOfThree(0x01, 0x10, 0x21);
    LowBitLast(0);
    LowBitLast(1);
  }

  lemma GeneratorWindow()
    ensures Window(ByteBits(0x10) + ByteBits(0x21)) == XorWord(Window(ByteBits(0) + ByteBits(0)), POLY)
  {
    WindowOfTwo(0, 0);
    WindowOfTwo(0x10, 0x21);
    Commutes(0, POLY);
    Zero(POLY);
  }

  lemma SameRegister(s: word)
    ensures Fold(s, CLEAN) == Fold(s, STRUCK)
  {
    LeadingAndWindow(0, 0, 0, s);
    LeadingAndWindow(0x01, 0x10, 0x21, s);
    GeneratorWindow();
    SeventeenBitsCancel(FoldBits(s, NumberBits(0, OCTET - 1)),
                        ByteBits(0) + ByteBits(0), ByteBits(0x10) + ByteBits(0x21));
    FoldIsSerial(s, CLEAN);
    FoldIsSerial(s, STRUCK);
  }

  /** A burst of 17 bits that no checksum notices: two octet streams that differ, though
      only in 17 consecutive bits, give the same register anywhere in a message. */
  lemma SeventeenBitsEscape(r: word, before: seq<byte>, after: seq<byte>)
    ensures CLEAN != STRUCK && Bits(CLEAN)[..7] == Bits(STRUCK)[..7] && |Bits(CLEAN)| == |Bits(STRUCK)| == 24
    ensures Fold(r, before + CLEAN + after) == Fold(r, before + STRUCK + after)
  {
    StruckAgreesBefore();
    SameRegister(Fold(r, before));
    FoldThree(r, before, CLEAN, after);
    FoldThree(r, before, STRUCK, after);
  }

  lemma FoldThree(r: word, a: seq<byte>, b: seq<byte>, c: seq<byte>)
    ensures Fold(r, a + b + c) == Fold(Fold(Fold(r, a), b), c)
  {
    FoldConcat(r, a + b, c);
    FoldConcat(r, a, b);
  }
}
