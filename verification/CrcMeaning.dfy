/** What crc16 computes (src/safety/e2e.cpp), said without the loop: a remainder of division by
    x^16 + x^12 + x^5 + 1, polynomials over two elements being numbers added by Xor. */
module CrcMeaning {
  import opened Bytes
  import opened BitMath
  import opened Division
  import opened Crc16
  import opened CrcBits

  /** q times x^16 + x^12 + x^5 + 1. */
  function TimesGenerator(q: nat): nat {
    Xor(Xor(65536 * q, 4096 * q), Xor(32 * q, q))
  }

  /** The octets as one number, the first the highest. */
  function Number(data: seq<byte>): nat {
    if data == [] then 0 else 256 * Number(data[..|data| - 1]) + data[|data| - 1]
  }

  /** n differs from c by a multiple of the generator. */
  ghost predicate Congruent(n: nat, c: nat) {
    exists q: nat :: n == Xor(TimesGenerator(q), c)
  }

  /** The data times x^16, its first sixteen bits complemented. */
  function Dividend(data: seq<byte>): nat {
    Xor(65536 * Number(data), 65535 * Pow2(8 * |data|))
  }

  ghost predicate IsRemainder(data: seq<byte>, c: nat) {
    c < 65536 && Congruent(Dividend(data), c)
  }

  // ---------------------------------------------------------------- doubling

  function Doubled(a: nat, m: nat): nat {
    if m == 0 then a else 2 * Doubled(a, m - 1)
  }

  lemma DoubledFour(a: nat, m: nat)
    ensures Doubled(a, m + 4) == 16 * Doubled(a, m)
  {
    assert Doubled(a, m + 1) == 2 * Doubled(a, m);
    assert Doubled(a, m + 2) == 2 * Doubled(a, m + 1);
    assert Doubled(a, m + 3) == 2 * Doubled(a, m + 2);
  }

  lemma DoubledValues(a: nat)
    ensures Doubled(a, 5) == 32 * a && Doubled(a, 8) == 256 * a
    ensures Doubled(a, 12) == 4096 * a && Doubled(a, 16) == 65536 * a
  {
    DoubledFour(a, 0);
    DoubledFour(a, 4);
    DoubledFour(a, 8);
    DoubledFour(a, 12);
  }

  lemma {:induction false} XorDoubled(a: nat, b: nat, m: nat)
    ensures Xor(Doubled(a, m), Doubled(b, m)) == Doubled(Xor(a, b), m)
  {
    if m > 0 {
      XorDoubled(a, b, m - 1);
      XorDoubles(Doubled(a, m - 1), Doubled(b, m - 1));
    }
  }

  lemma XorScaled(a: nat, b: nat)
    ensures Xor(32 * a, 32 * b) == 32 * Xor(a, b) && Xor(256 * a, 256 * b) == 256 * Xor(a, b)
    ensures Xor(4096 * a, 4096 * b) == 4096 * Xor(a, b) && Xor(65536 * a, 65536 * b) == 65536 * Xor(a, b)
  {
    DoubledValues(a);
    DoubledValues(b);
    DoubledValues(Xor(a, b));
    XorDoubled(a, b, 5);
    XorDoubled(a, b, 8);
    XorDoubled(a, b, 12);
    XorDoubled(a, b, 16);
  }

  // ---------------------------------------------------------------- multiples of the generator

  lemma Exchange(a: nat, b: nat, c: nat, d: nat)
    ensures Xor(Xor(a, b), Xor(c, d)) == Xor(Xor(a, c), Xor(b, d))
  {
    Associates(Xor(a, b), c, d);
    Swap(a, b, c);
    Associates(Xor(a, c), b, d);
  }

  lemma TimesAdds(p: nat, q: nat)
    ensures TimesGenerator(Xor(p, q)) == Xor(TimesGenerator(p), TimesGenerator(q))
  {
    XorScaled(p, q);
    Exchange(65536 * p, 4096 * p, 65536 * q, 4096 * q);
    Exchange(32 * p, p, 32 * q, q);
    Exchange(Xor(65536 * p, 4096 * p), Xor(32 * p, p), Xor(65536 * q, 4096 * q), Xor(32 * q, q));
  }

  lemma TimesDoubles(q: nat)
    ensures TimesGenerator(2 * q) == 2 * TimesGenerator(q)
  {
    XorDoubles(65536 * q, 4096 * q);
    XorDoubles(32 * q, q);
    XorDoubles(Xor(65536 * q, 4096 * q), Xor(32 * q, q));
  }

  lemma HighPart(high: nat, low: nat, k: nat)
    requires high == Pow2(k) && low < high
    ensures Xor(high, low) == high + low
  {
    HighBit(0, low, k);
    Commutes(0, low);
    Zero(low);
  }

  lemma GeneratorItself()
    ensures TimesGenerator(1) == 0x11021
  {
    Pow2Values();
    assert Pow2(5) == 32 && Pow2(0) == 1;
    HighPart(65536, 4096, 16);
    HighPart(32, 1, 5);
    HighBit(4096, 33, 16);
    HighPart(4096, 33, 12);
  }

  // ---------------------------------------------------------------- the register follows

  lemma DoubleStep(n: nat, q: nat, r: word)
    requires n == Xor(TimesGenerator(q), r)
    ensures 2 * n == Xor(TimesGenerator(2 * q), 2 * r)
  {
    XorDoubles(TimesGenerator(q), r);
    TimesDoubles(q);
  }

  /** Carrying x^16 out of the register takes the generator once more. */
  lemma CarryStep(low: word)
    requires low < 65536
    ensures Xor(0x11021, Xor(low, 0x1021)) == 0x10000 + low
  {
    Pow2Values();
    HighPart(0x10000, 0x1021, 16);
    HighPart(0x10000, low, 16);
    Commutes(low, 0x1021);
    Associates(0x10000, 0x1021, Xor(0x1021, low));
    Associates(0x1021, 0x1021, low);
    Self(0x1021);
    Commutes(0, low);
    Zero(low);
  }

  lemma ShiftFollows(n: nat, r: word)
    requires Congruent(n, r)
    ensures Congruent(2 * n, Shift(r))
  {
    var q: nat := Quotient(n, r);
    DoubleStep(n, q, r);
    if r >= 0x8000 {
      CarryFollows(2 * n, 2 * q, 2 * r - 0x10000);
      assert Shift(r) == XorWord(2 * r - 0x10000, POLY);
    } else {
      Witness(2 * n, 2 * q, 2 * r);
      assert Shift(r) == 2 * r;
    }
  }

  lemma Quotient(n: nat, c: nat) returns (q: nat)
    requires Congruent(n, c)
    ensures n == Xor(TimesGenerator(q), c)
  {
    q :| n == Xor(TimesGenerator(q), c);
  }

  lemma Witness(n: nat, q: nat, c: nat)
    requires n == Xor(TimesGenerator(q), c)
    ensures Congruent(n, c)
  {
  }

  lemma Regroup(n: nat, t: nat, g: nat, x: nat, sum: nat)
    requires Xor(g, x) == sum && n == Xor(t, sum)
    ensures n == Xor(Xor(t, g), x)
  {
    Associates(t, g, x);
  }

  lemma CarryFollows(n: nat, p: nat, low: word)
    requires n == Xor(TimesGenerator(p), 0x10000 + low)
    ensures Congruent(n, XorWord(low, POLY))
  {
    CarryStep(low);
    GeneratorItself();
    CarryFollowsBy(n, p, 0x10000 + low, TimesGenerator(1), XorWord(low, POLY), 1);
  }

  lemma CarryFollowsBy(n: nat, p: nat, sum: nat, g: nat, x: nat, one: nat)
    requires g == TimesGenerator(one)
    requires n == Xor(TimesGenerator(p), sum) && Xor(g, x) == sum
    ensures Congruent(n, x)
  {
    TimesAdds(p, one);
    Regroup(n, TimesGenerator(p), g, x, sum);
    Witness(n, Xor(p, one), x);
  }

  lemma {:induction false} ShiftNFollows(n: nat, r: word, m: nat)
    requires Congruent(n, r)
    ensures Congruent(Doubled(n, m), ShiftN(r, m))
  {
    if m > 0 {
      ShiftNFollows(n, r, m - 1);
      ShiftFollows(Doubled(n, m - 1), ShiftN(r, m - 1));
    }
  }

  lemma AddFollows(n: nat, r: word, x: word)
    requires Congruent(n, r)
    ensures Congruent(Xor(n, x), XorWord(r, x))
  {
    var q: nat := Quotient(n, r);
    Associates(TimesGenerator(q), r, x);
    Witness(Xor(n, x), q, XorWord(r, x));
  }

  lemma AbsorbFollows(n: nat, r: word, b: byte)
    requires Congruent(n, r)
    ensures Congruent(Xor(256 * n, 65536 * b), Absorb(r, b))
  {
    var x := 256 * b;
    AddFollows(n, r, x);
    EightShiftsFollow(Xor(n, x), XorWord(r, x));
    XorScaled(n, x);
    assert 256 * x == 65536 * b;
  }

  lemma EightShiftsFollow(n: nat, r: word)
    requires Congruent(n, r)
    ensures Congruent(256 * n, ShiftN(r, 8))
  {
    ShiftNFollows(n, r, 8);
    DoubledValues(n);
  }

  lemma {:induction false} OctetBelow(n: nat, b: byte)
    ensures Xor(256 * n, b) == 256 * n + b
  {
    DoubledValues(n);
    BelowDoubled(n, b, 8);
  }

  lemma {:induction false} BelowDoubled(n: nat, b: nat, m: nat)
    requires b < Pow2(m)
    ensures Xor(Doubled(n, m), b) == Doubled(n, m) + b
  {
    if m == 0 {
      Zero(n);
    } else {
      BelowDoubled(n, b / 2, m - 1);
      XorEven(Doubled(n, m - 1), b);
    }
  }

  lemma XorEven(d: nat, b: nat)
    ensures Xor(2 * d, b) == b % 2 + 2 * Xor(d, b / 2)
  {
  }

  /** One octet more multiplies the dividend by x^8 and adds the octet times x^16. */
  lemma DividendGrows(n: nat, p: nat, b: byte)
    ensures Xor(65536 * (256 * n + b), 65535 * (256 * p)) == Xor(256 * Xor(65536 * n, 65535 * p), 65536 * b)
  {
    OctetBelow(n, b);
    XorScaled(256 * n, b);
    var x, y, z := 65536 * (256 * n), 65535 * (256 * p), 65536 * b;
    assert x == 256 * (65536 * n) && y == 256 * (65535 * p);
    XorScaled(65536 * n, 65535 * p);
    Swap(x, z, y);
  }

  lemma Pow2Octets(n: nat)
    ensures Pow2(8 * (n + 1)) == 256 * Pow2(8 * n)
  {
    Pow2Plus(8 * n, 8);
    DoubledValues(Pow2(8 * n));
  }

  lemma {:induction false} FoldFollows(data: seq<byte>)
    ensures Congruent(Dividend(data), Crc(data))
  {
    if data == [] {
      Commutes(0, 65535);
      Zero(65535);
      Zero(0);
      assert TimesGenerator(0) == 0;
      assert Dividend([]) == Xor(TimesGenerator(0), 65535);
    } else {
      var front, b := data[..|data| - 1], data[|data| - 1];
      FoldFollows(front);
      AbsorbFollows(Dividend(front), Crc(front), b);
      DividendGrows(Number(front), Pow2(8 * |front|), b);
      Pow2Octets(|front|);
    }
  }

  // ---------------------------------------------------------------- there is one remainder

  /** The power of two at or below d. */
  lemma {:induction false} TopPower(d: nat) returns (k: nat)
    requires d > 0
    ensures Pow2(k) <= d < 2 * Pow2(k)
  {
    if d == 1 {
      k := 0;
    } else {
      k := TopPower(d / 2);
      k := k + 1;
    }
  }

  lemma {:induction false} Pow2Plus(k: nat, m: nat)
    ensures Pow2(k + m) == Doubled(Pow2(k), m)
  {
    if m > 0 {
      Pow2Plus(k, m - 1);
    }
  }

  /** A multiple of the generator other than zero has degree sixteen at least. */
  lemma MultipleIsBig(d: nat)
    requires d > 0
    ensures TimesGenerator(d) >= 65536
  {
    var k := TopPower(d);
    Pow2Plus(k, 16);
    DoubledValues(Pow2(k));
    SumIsBig(65536 * d, 4096 * d, 32 * d, d, k + 16);
  }

  lemma TopStays(a: nat, b: nat, k: nat)
    requires Pow2(k) <= a < 2 * Pow2(k) && b < Pow2(k)
    ensures Pow2(k) <= Xor(a, b) < 2 * Pow2(k)
  {
    HighBit(a - Pow2(k), b, k);
  }

  lemma SumIsBig(a: nat, b: nat, c: nat, d: nat, k: nat)
    requires Pow2(k) <= a < 2 * Pow2(k) && b < Pow2(k) && c < Pow2(k) && d < Pow2(k)
    ensures Xor(Xor(a, b), Xor(c, d)) >= Pow2(k)
  {
    HighBit(c, d, k);
    TopStays(a, b, k);
    TopStays(Xor(a, b), Xor(c, d), k);
  }

  lemma OneRemainder(n: nat, c: nat, c': nat)
    requires c < 65536 && c' < 65536 && Congruent(n, c) && Congruent(n, c')
    ensures c == c'
  {
    var q: nat := Quotient(n, c);
    var q': nat := Quotient(n, c');
    Exchange(TimesGenerator(q), c, TimesGenerator(q'), c');
    Self(n);
    TimesAdds(q, q');
    SumIsZero(TimesGenerator(Xor(q, q')), Xor(c, c'));
    Pow2Values();
    HighBit(c, c', 16);
    if Xor(q, q') > 0 {
      MultipleIsBig(Xor(q, q'));
    }
    SumIsZero(c, c');
  }

  lemma {:induction false} SumIsZero(a: nat, b: nat)
    ensures Xor(a, b) == 0 ==> a == b
  {
    if a + b > 0 {
      SumIsZero(a / 2, b / 2);
    }
  }

  /** For every octet string, crc16 is the one remainder there is. */
  lemma CrcIsRemainder(data: seq<byte>, c: nat)
    ensures IsRemainder(data, c) <==> c == Crc(data)
  {
    FoldFollows(data);
    if IsRemainder(data, c) {
      OneRemainder(Dividend(data), c, Crc(data));
    }
  }

  // ---------------------------------------------------------------- the register by arithmetic

  /** Takes a 1 at bit 12, 5 or 0 away and puts one where there is none, bit 0 being clear. */
  function Flipped(x: int): int {
    x + (if x / 4096 % 2 == 1 then -4096 else 4096) + (if x / 32 % 2 == 1 then -32 else 32) + 1
  }

  /** One message bit into the register: doubled, and flipped at three bits if what falls out
      at the top is not the message bit. */
  function Fed(r: int, bit: bool): int {
    var doubled := 2 * (if r >= 32768 then r - 32768 else r);
    if (r >= 32768) != bit then Flipped(doubled) else doubled
  }

  function FedFour(r: int, b3: bool, b2: bool, b1: bool, b0: bool): int { Fed(Fed(Fed(Fed(r, b3), b2), b1), b0) }

  /** An octet's bits, the highest first. */
  function FedOctet(r: int, b: int): int {
    var r4 := FedFour(r, b / 128 % 2 == 1, b / 64 % 2 == 1, b / 32 % 2 == 1, b / 16 % 2 == 1);
    FedFour(r4, b / 8 % 2 == 1, b / 4 % 2 == 1, b / 2 % 2 == 1, b % 2 == 1)
  }

  lemma {:induction false} Toggle(x: nat, k: nat)
    ensures Xor(x, Pow2(k)) == if BitAt(x, k) then x - Pow2(k) else x + Pow2(k)
  {
    if k == 0 {
      BitZero(x);
      Zero(x / 2);
    } else {
      BitNext(x, k - 1);
      Toggle(x / 2, k - 1);
      XorHalves(x, Pow2(k - 1));
    }
  }

  lemma XorHalves(x: nat, p: nat)
    ensures Xor(x, 2 * p) == x % 2 + 2 * Xor(x / 2, p)
  {
  }

  lemma ToggleBy(x: nat, k: nat, p: nat)
    requires p == Pow2(k)
    ensures Xor(x, p) == if x / p % 2 == 1 then x - p else x + p
  {
    Toggle(x, k);
  }

  lemma SmallPowers()
    ensures Pow2(0) == 1 && Pow2(5) == 32 && Pow2(12) == 4096 && Pow2(15) == 0x8000
  {
    Pow2Values();
    assert Pow2(4) == 16;
  }

  lemma Unmoved(x: nat, y: nat)
    requires y == x + 4096 || x == y + 4096
    ensures y / 32 % 2 == x / 32 % 2
  {
    var q, r := x / 32, x % 32;
    if y == x + 4096 {
      Split(y, 32, q + 128, r);
    } else {
      Split(y, 32, q - 128, r);
    }
  }

  lemma EvenFlips(z: nat)
    requires z % 2 == 0
    ensures Xor(z, 1) == z + 1
  {
    Zero(z / 2);
  }

  lemma ToggleThree(x: nat)
    requires x % 2 == 0 && x < 65536
    ensures Xor(Xor(Xor(x, 4096), 32), 1) == Flipped(x)
  {
    SmallPowers();
    ToggleBits(x, 4096, 32);
  }

  lemma ToggleBits(x: nat, a: nat, b: nat)
    requires x % 2 == 0 && a == Pow2(12) == 4096 && b == Pow2(5) == 32
    ensures Xor(Xor(Xor(x, a), b), 1) == Flipped(x)
  {
    var y := Xor(x, a);
    ToggleBy(x, 12, a);
    Unmoved(x, y);
    ToggleBy(y, 5, b);
    KeepsParity(x, y, Xor(y, b));
    EvenFlips(Xor(y, b));
  }

  lemma KeepsParity(x: nat, y: nat, z: nat)
    requires x % 2 == 0 && (y == x + 4096 || x == y + 4096) && (z == y + 32 || y == z + 32)
    ensures z % 2 == 0
  {
  }

  lemma PolySum()
    ensures POLY == Xor(4096, 33) && 33 == Xor(32, 1)
  {
    SmallPowers();
    HighPart(4096, 33, 12);
    HighPart(32, 1, 5);
  }

  lemma FlippedIs(x: nat, poly: nat, a: nat, b: nat, c: nat, bc: nat)
    requires poly == Xor(a, bc) && bc == Xor(b, c)
    ensures Xor(x, poly) == Xor(Xor(Xor(x, a), b), c)
  {
    Associates(x, a, bc);
    Associates(Xor(x, a), b, c);
  }

  lemma TopFlips(r: word)
    ensures XorWord(r, 0x8000) == if r >= 0x8000 then r - 0x8000 else r + 0x8000
    ensures XorWord(r, 0) == r
  {
    SmallPowers();
    ToggleBy(r, 15, 0x8000);
    Zero(r);
  }

  lemma ShiftArithmetic(r: word)
    ensures Shift(r) == if r >= 0x8000 then Flipped(2 * (r - 0x8000)) else 2 * r
  {
    if r >= 0x8000 {
      PolyFlips(2 * (r - 0x8000));
    }
  }

  lemma PolyFlips(x: nat)
    requires x % 2 == 0 && x < 65536
    ensures Xor(x, POLY) == Flipped(x)
  {
    PolySum();
    ToggleThree(x);
    FlippedIs(x, POLY, 4096, 32, 1, 33);
  }

  lemma BitStepFed(r: word, bit: bool)
    ensures BitStep(r, bit) == Fed(r, bit)
  {
    TopFlips(r);
    ShiftArithmetic(XorWord(r, Bit(bit)));
  }

  /** The byte loop is this arithmetic. */
  lemma OctetStep(r: word, b: byte)
    ensures Absorb(r, b) == FedOctet(r, b)
  {
    AbsorbIsSerial(r, b);
    OctetBits(b);
    EightBits(r, b / 128 % 2 == 1, b / 64 % 2 == 1, b / 32 % 2 == 1, b / 16 % 2 == 1,
              b / 8 % 2 == 1, b / 4 % 2 == 1, b / 2 % 2 == 1, b % 2 == 1);
  }

  lemma AbsorbIsSerial(r: word, b: byte)
    ensures Absorb(r, b) == FoldBits(r, ByteBits(b))
  {
    WindowAtOnce(r, ByteBits(b));
    WindowOfByte(b);
  }

  lemma NumberBitsStep(x: nat, n: nat)
    requires n > 0
    ensures NumberBits(x, n) == NumberBits(x / 2, n - 1) + [x % 2 == 1]
  {
  }

  lemma TwoNumberBits(x: nat, n: nat)
    requires n >= 2
    ensures NumberBits(x, n) == NumberBits(x / 4, n - 2) + [x / 2 % 2 == 1, x % 2 == 1]
  {
    NumberBitsStep(x, n);
    NumberBitsStep(x / 2, n - 1);
    assert x / 2 / 2 == x / 4;
  }

  lemma FourNumberBits(x: nat, n: nat)
    requires n >= 4
    ensures NumberBits(x, n)
         == NumberBits(x / 16, n - 4) + [x / 8 % 2 == 1, x / 4 % 2 == 1, x / 2 % 2 == 1, x % 2 == 1]
  {
    TwoNumberBits(x, n);
    TwoNumberBits(x / 4, n - 2);
    assert x / 4 / 4 == x / 16 && x / 4 / 2 == x / 8;
  }

  lemma OctetBits(b: byte)
    ensures ByteBits(b) == [b / 128 % 2 == 1, b / 64 % 2 == 1, b / 32 % 2 == 1, b / 16 % 2 == 1,
                            b / 8 % 2 == 1, b / 4 % 2 == 1, b / 2 % 2 == 1, b % 2 == 1]
  {
    var high := b / 16;
    FourNumberBits(b, OCTET);
    FourNumberBits(high, OCTET - 4);
    assert high / 8 == b / 128 && high / 4 == b / 64 && high / 2 == b / 32;
    assert NumberBits(high, OCTET - 4) == [] + [high / 8 % 2 == 1, high / 4 % 2 == 1, high / 2 % 2 == 1, high % 2 == 1];
  }

  lemma FeedOne(r: word, bit: bool, rest: seq<bool>)
    ensures FoldBits(r, [bit] + rest) == FoldBits(BitStep(r, bit), rest)
  {
    assert ([bit] + rest)[1..] == rest;
  }

  lemma EightBits(r: word, b7: bool, b6: bool, b5: bool, b4: bool, b3: bool, b2: bool, b1: bool, b0: bool)
    ensures FoldBits(r, [b7, b6, b5, b4, b3, b2, b1, b0]) == FedFour(FedFour(r, b7, b6, b5, b4), b3, b2, b1, b0)
  {
    FourBits(r, b7, b6, b5, b4);
    FourBits(FoldBits(r, [b7, b6, b5, b4]), b3, b2, b1, b0);
    FoldBitsConcat(r, [b7, b6, b5, b4], [b3, b2, b1, b0]);
    assert [b7, b6, b5, b4] + [b3, b2, b1, b0] == [b7, b6, b5, b4, b3, b2, b1, b0];
  }

  lemma FourBits(r: word, b3: bool, b2: bool, b1: bool, b0: bool)
    ensures FoldBits(r, [b3, b2, b1, b0]) == FedFour(r, b3, b2, b1, b0)
  {
    var r1 := BitStep(r, b3);
    var r2 := BitStep(r1, b2);
    var r3 := BitStep(r2, b1);
    FeedOne(r, b3, [b2, b1, b0]);
    assert [b3] + [b2, b1, b0] == [b3, b2, b1, b0];
    FeedOne(r1, b2, [b1, b0]);
    assert [b2] + [b1, b0] == [b2, b1, b0];
    FeedOne(r2, b1, [b0]);
    assert [b1] + [b0] == [b1, b0];
    FeedOne(r3, b0, []);
    assert [b0] + [] == [b0];
    BitStepFed(r, b3);
    BitStepFed(r1, b2);
    BitStepFed(r2, b1);
    BitStepFed(r3, b0);
  }

  /** One octet more, by its bits and the register's values after each of them. */
  lemma CrcNext(
    data: seq<byte>, k: nat,
    b7: bool, b6: bool, b5: bool, b4: bool, b3: bool, b2: bool, b1: bool, b0: bool,
    r0: word, r1: word, r2: word, r3: word, r4: word, r5: word, r6: word, r7: word, r8: word)
    requires k < |data| && Crc(data[..k]) == r0 && ByteBits(data[k]) == [b7, b6, b5, b4, b3, b2, b1, b0]
    requires Fed(r0, b7) == r1 && Fed(r1, b6) == r2 && Fed(r2, b5) == r3 && Fed(r3, b4) == r4
    requires Fed(r4, b3) == r5 && Fed(r5, b2) == r6 && Fed(r6, b1) == r7 && Fed(r7, b0) == r8
    ensures Crc(data[..k + 1]) == r8
  {
    AbsorbIsSerial(r0, data[k]);
    EightBits(r0, b7, b6, b5, b4, b3, b2, b1, b0);
    assert data[..k + 1][..k] == data[..k];
  }

  lemma FirstOctet(data: seq<byte>, k: nat)
    requires k < |data| && data[k] == 0x31 && Crc(data[..k]) == 0xFFFF
    ensures Crc(data[..k + 1]) == 0xC782
  {
    OctetBits(data[k]);
    CrcNext(data, k, false, false, true, true, false, false, false, true,
            0xFFFF, 0xEFDF, 0xCF9F, 0x9F3E, 0x3E7C, 0x7CF8, 0xF9F0, 0xE3C1, 0xC782);
  }

  lemma SecondOctet(data: seq<byte>, k: nat)
    requires k < |data| && data[k] == 0x32 && Crc(data[..k]) == 0xC782
    ensures Crc(data[..k + 1]) == 0x3DBA
  {
    OctetBits(data[k]);
    CrcNext(data, k, false, false, true, true, false, false, true, false,
            0xC782, 0x9F25, 0x2E6B, 0x4CF7, 0x89CF, 0x03BF, 0x077E, 0x1EDD, 0x3DBA);
  }

  lemma ThirdOctet(data: seq<byte>, k: nat)
    requires k < |data| && data[k] == 0x33 && Crc(data[..k]) == 0x3DBA
    ensures Crc(data[..k + 1]) == 0x5BCE
  {
    OctetBits(data[k]);
    CrcNext(data, k, false, false, true, true, false, false, true, true,
            0x3DBA, 0x7B74, 0xF6E8, 0xEDD0, 0xDBA0, 0xA761, 0x5EE3, 0xADE7, 0x5BCE);
  }

  lemma FourthOctet(data: seq<byte>, k: nat)
    requires k < |data| && data[k] == 0x34 && Crc(data[..k]) == 0x5BCE
    ensures Crc(data[..k + 1]) == 0x5349
  {
    OctetBits(data[k]);
    CrcNext(data, k, false, false, true, true, false, true, false, false,
            0x5BCE, 0xB79C, 0x7F19, 0xEE13, 0xDC26, 0xA86D, 0x50DA, 0xA1B4, 0x5349);
  }

  lemma FifthOctet(data: seq<byte>, k: nat)
    requires k < |data| && data[k] == 0x35 && Crc(data[..k]) == 0x5349
    ensures Crc(data[..k + 1]) == 0x4560
  {
    OctetBits(data[k]);
    CrcNext(data, k, false, false, true, true, false, true, false, true,
            0x5349, 0xA692, 0x5D05, 0xAA2B, 0x5456, 0xA8AC, 0x5158, 0xA2B0, 0x4560);
  }

  lemma SixthOctet(data: seq<byte>, k: nat)
    requires k < |data| && data[k] == 0x36 && Crc(data[..k]) == 0x4560
    ensures Crc(data[..k + 1]) == 0x2EF4
  {
    OctetBits(data[k]);
    CrcNext(data, k, false, false, true, true, false, true, true, false,
            0x4560, 0x8AC0, 0x05A1, 0x1B63, 0x26E7, 0x4DCE, 0x8BBD, 0x177A, 0x2EF4);
  }

  lemma SeventhOctet(data: seq<byte>, k: nat)
    requires k < |data| && data[k] == 0x37 && Crc(data[..k]) == 0x2EF4
    ensures Crc(data[..k + 1]) == 0x7718
  {
    OctetBits(data[k]);
    CrcNext(data, k, false, false, true, true, false, true, true, true,
            0x2EF4, 0x5DE8, 0xBBD0, 0x77A0, 0xFF61, 0xEEE3, 0xDDC6, 0xBB8C, 0x7718);
  }

  lemma EighthOctet(data: seq<byte>, k: nat)
    requires k < |data| && data[k] == 0x38 && Crc(data[..k]) == 0x7718
    ensures Crc(data[..k + 1]) == 0xA12B
  {
    OctetBits(data[k]);
    CrcNext(data, k, false, false, true, true, true, false, false, false,
            0x7718, 0xEE30, 0xCC41, 0x9882, 0x3104, 0x7229, 0xE452, 0xD885, 0xA12B);
  }

  lemma NinthOctet(data: seq<byte>, k: nat)
    requires k < |data| && data[k] == 0x39 && Crc(data[..k]) == 0xA12B
    ensures Crc(data[..k + 1]) == 0x29B1
  {
    OctetBits(data[k]);
    CrcNext(data, k, false, false, true, true, true, false, false, true,
            0xA12B, 0x5277, 0xA4EE, 0x49DC, 0x8399, 0x0732, 0x0E64, 0x1CC8, 0x29B1);
  }

  lemma NineOctets(data: seq<byte>, k: nat)
    requires k + 9 == |data| && Crc(data[..k]) == 0xFFFF
    requires data[k..] == [0x31, 0x32, 0x33, 0x34, 0x35, 0x36, 0x37, 0x38, 0x39]
    ensures Crc(data[..k + 9]) == 0x29B1
  {
    assert forall i :: 0 <= i < 9 ==> data[k + i] == data[k..][i];
    FirstOctet(data, k);
    SecondOctet(data, k + 1);
    ThirdOctet(data, k + 2);
    FourthOctet(data, k + 3);
    FifthOctet(data, k + 4);
    SixthOctet(data, k + 5);
    SeventhOctet(data, k + 6);
    EighthOctet(data, k + 7);
    NinthOctet(data, k + 8);
  }

  /** The check value of CRC-16/CCITT-FALSE: the octets of "123456789". */
  lemma KnownVector(data: seq<byte>)
    requires data == [0x31, 0x32, 0x33, 0x34, 0x35, 0x36, 0x37, 0x38, 0x39]
    ensures Crc(data) == 0x29B1
  {
    NothingFed(data);
    NineOctets(data, 0);
    assert data[..9] == data;
  }

  lemma NothingFed(data: seq<byte>)
    ensures Crc(data[..0]) == 0xFFFF
  {
  }
}
