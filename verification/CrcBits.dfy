/** The byte loop of the CRC (src/safety/e2e.cpp) as a register fed one message bit at a
    time, and windows of bits fed at once. */
module CrcBits {
  import opened Bytes
  import opened BitMath
  import opened Crc16

  function Bit(b: bool): word { if b then 0x8000 else 0 }

  /** The register after one message bit: the serial form the byte loop speeds up. */
  function BitStep(crc: word, bit: bool): word {
    Shift(XorWord(crc, Bit(bit)))
  }

  function FoldBits(crc: word, bits: seq<bool>): word
    decreases |bits|
  {
    if bits == [] then crc else FoldBits(BitStep(crc, bits[0]), bits[1..])
  }

  /** The n low bits of a number, most significant first. */
  function NumberBits(x: nat, n: nat): (bits: seq<bool>)
    ensures |bits| == n
    decreases n
  {
    if n == 0 then [] else NumberBits(x / 2, n - 1) + [x % 2 == 1]
  }

  /** An octet as it meets the register. */
  function ByteBits(b: byte): (bits: seq<bool>)
    ensures |bits| == 8
  {
    NumberBits(b, OCTET)
  }

  function Bits(data: seq<byte>): (bits: seq<bool>)
    ensures |bits| == 8 * |data|
  {
    if data == [] then [] else Bits(data[..|data| - 1]) + ByteBits(data[|data| - 1])
  }

  /** A window of at most 16 - k bits as a number, its first bit k places below
      the top of the register. */
  function Top(bits: seq<bool>, k: nat): (t: nat)
    requires |bits| + k <= 16
    ensures t < Pow2(16 - k)
    decreases |bits|
  {
    if bits == [] then 0 else (if bits[0] then Pow2(15 - k) else 0) + Top(bits[1..], k + 1)
  }

  function Window(bits: seq<bool>): word
    requires |bits| <= 16
  {
    Pow2Values();
    Top(bits, 0)
  }

  lemma {:induction false} TopDoubles(bits: seq<bool>, k: nat)
    requires |bits| + k + 1 <= 16
    ensures Top(bits, k) == 2 * Top(bits, k + 1)
    decreases |bits|
  {
    if bits != [] {
      TopDoubles(bits[1..], k + 1);
    }
  }

  /** Distinct windows of one length are distinct register contents. */
  lemma {:induction false} TopInjective(a: seq<bool>, b: seq<bool>, k: nat)
    requires |a| == |b| && |a| + k <= 16 && Top(a, k) == Top(b, k)
    ensures a == b
    decreases |a|
  {
    if a != [] {
      TopInjective(a[1..], b[1..], k + 1);
      assert a == [a[0]] + a[1..] && b == [b[0]] + b[1..];
    }
  }

  /** Feeding at most 16 bits one by one is adding them to the top of the
      register at once and then shifting. */
  lemma {:induction false} WindowAtOnce(r: word, bits: seq<bool>)
    requires |bits| <= 16
    ensures FoldBits(r, bits) == ShiftN(XorWord(r, Window(bits)), |bits|)
    decreases |bits|
  {
    Zero(r);
    if bits != [] {
      var rest := bits[1..];
      Pow2Values();
      var half := Top(rest, 1);
      TopDoubles(rest, 0);
      var all := XorWord(r, Window(bits));
      assert Shift(all) == XorWord(BitStep(r, bits[0]), Window(rest)) by {
        HighBit(0, half, 15);
        Commutes(half, 0);
        Zero(half);
        Associates(r, Bit(bits[0]), half);
        ShiftAdds(XorWord(r, Bit(bits[0])), half);
      }
      WindowAtOnce(BitStep(r, bits[0]), rest);
      ShiftNCommutes(all, |rest|);
    }
  }

  // ---------------------------------------------------------------- bytes are bits

  lemma {:induction false} TopSnoc(bits: seq<bool>, bit: bool, k: nat)
    requires |bits| + 1 + k <= 16
    ensures Top(bits + [bit], k) == Top(bits, k) + (if bit then Pow2(15 - k - |bits|) else 0)
    decreases |bits|
  {
    if bits == [] {
      assert bits + [bit] == [bit];
      assert Top([], k + 1) == 0;
    } else {
      assert (bits + [bit])[1..] == bits[1..] + [bit];
      TopSnoc(bits[1..], bit, k + 1);
    }
  }

  lemma {:induction false} TopOfNumber(x: nat, n: nat)
    requires n <= 16 && x < Pow2(n)
    ensures Top(NumberBits(x, n), 0) == x * Pow2(16 - n)
    decreases n
  {
    if n > 0 {
      TopOfNumber(x / 2, n - 1);
      TopSnoc(NumberBits(x / 2, n - 1), x % 2 == 1, 0);
      TimesHalves(x, Pow2(16 - n));
    }
  }

  lemma TimesHalves(x: nat, p: nat)
    ensures x * p == (x / 2) * (2 * p) + (if x % 2 == 1 then p else 0)
  {
    var half := x / 2;
    assert half * (2 * p) == (2 * half) * p;
    assert x == 2 * half || x == 2 * half + 1;
  }

  lemma WindowOfByte(b: byte)
    ensures Window(ByteBits(b)) == 256 * b
  {
    Pow2Values();
    TopOfNumber(b, OCTET);
  }

  lemma {:induction false} FoldBitsConcat(r: word, a: seq<bool>, b: seq<bool>)
    ensures FoldBits(r, a + b) == FoldBits(FoldBits(r, a), b)
    decreases |a|
  {
    if a == [] {
      assert a + b == b;
    } else {
      assert (a + b)[1..] == a[1..] + b;
      FoldBitsConcat(BitStep(r, a[0]), a[1..], b);
    }
  }

  /** The byte loop of crc16 is the serial division register run over the bits. */
  lemma {:induction false} FoldIsSerial(r: word, data: seq<byte>)
    ensures Fold(r, data) == FoldBits(r, Bits(data))
    decreases |data|
  {
    if data != [] {
      var front, last := data[..|data| - 1], data[|data| - 1];
      FoldIsSerial(r, front);
      FoldBitsConcat(r, Bits(front), ByteBits(last));
      WindowAtOnce(Fold(r, front), ByteBits(last));
      WindowOfByte(last);
    }
  }

  lemma ConcatCancel<T>(a: seq<T>, b: seq<T>, x: seq<T>, y: seq<T>)
    requires a + x == b + y && |a| == |b|
    ensures a == b && x == y
  {
    assert a == (a + x)[..|a|] && b == (b + y)[..|a|];
    assert x == (a + x)[|a|..] && y == (b + y)[|a|..];
  }

  lemma {:induction false} NumberBitsInjective(x: nat, y: nat, n: nat)
    requires x < Pow2(n) && y < Pow2(n) && NumberBits(x, n) == NumberBits(y, n)
    ensures x == y
    decreases n
  {
    if n > 0 {
      ConcatCancel(NumberBits(x / 2, n - 1), NumberBits(y / 2, n - 1), [x % 2 == 1], [y % 2 == 1]);
      NumberBitsInjective(x / 2, y / 2, n - 1);
    }
  }

  lemma LastOctets(u: seq<bool>, v: seq<bool>, x: byte, y: byte)
    requires |u| == |v| && u + ByteBits(x) == v + ByteBits(y)
    ensures u == v && x == y
  {
    ConcatCancel(u, v, ByteBits(x), ByteBits(y));
    Pow2Values();
    NumberBitsInjective(x, y, OCTET);
  }

  lemma BitsOfSnoc(a: seq<byte>, x: byte)
    ensures Bits(a + [x]) == Bits(a) + ByteBits(x)
  {
    assert (a + [x])[..|a|] == a;
  }

  lemma LastOctetsOfStreams(a: seq<byte>, x: byte, b: seq<byte>, y: byte)
    requires |a| == |b| && Bits(a + [x]) == Bits(b + [y])
    ensures Bits(a) == Bits(b) && x == y
  {
    BitsOfSnoc(a, x);
    BitsOfSnoc(b, y);
    LastOctets(Bits(a), Bits(b), x, y);
  }

  lemma SnocParts<T>(s: seq<T>) returns (front: seq<T>, last: T)
    requires s != []
    ensures s == front + [last]
  {
    front, last := s[..|s| - 1], s[|s| - 1];
  }

  lemma {:induction false} BitsInjective(a: seq<byte>, b: seq<byte>)
    requires |a| == |b| && Bits(a) == Bits(b)
    ensures a == b
    decreases |a|
  {
    if a != [] {
      var fa, la := SnocParts(a);
      var fb, lb := SnocParts(b);
      LastOctetsOfStreams(fa, la, fb, lb);
      BitsInjective(fa, fb);
    }
  }
}
