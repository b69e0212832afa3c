/** DBC signal extraction (src/dbc/parser.cpp): the bit loops of extract_raw and the sign
    step of Signal::decode against their arithmetic meaning. */
module Dbc {
  import opened Bytes
  import opened Division
  import opened BitMath

  datatype ByteOrder = LittleEndian | BigEndian

  // ---------------------------------------------------------------- numbers by halving

  /** n >> k */
  function Shr(n: nat, k: nat): nat
    decreases k
  {
    if k == 0 then n else Shr(n / 2, k - 1)
  }

  /** The lowest k bits of n. */
  function Low(n: nat, k: nat): nat
    decreases k
  {
    if k == 0 then 0 else n % 2 + 2 * Low(n / 2, k - 1)
  }

  lemma {:induction false} ShrIsDivision(n: nat, k: nat)
    ensures Shr(n, k) == n / Pow2(k)
    decreases k
  {
    if k > 0 {
      ShrIsDivision(n / 2, k - 1);
      HalfThenDivide(n, Pow2(k - 1));
    }
  }

  lemma {:induction false} LowIsRemainder(n: nat, k: nat)
    ensures Low(n, k) == n % Pow2(k)
    decreases k
  {
    if k > 0 {
      LowIsRemainder(n / 2, k - 1);
      HalfThenDivide(n, Pow2(k - 1));
    }
  }

  lemma {:induction false} ShrShr(n: nat, j: nat, k: nat)
    ensures Shr(Shr(n, j), k) == Shr(n, j + k)
    decreases j
  {
    if j > 0 {
      ShrShr(n / 2, j - 1, k);
    }
  }

  lemma ShrNext(n: nat, k: nat)
    ensures Shr(n, k + 1) == Shr(n, k) / 2
  {
    ShrShr(n, k, 1);
  }

  /** One more bit on top. */
  lemma {:induction false} LowNext(n: nat, k: nat)
    ensures Low(n, k + 1) == Low(n, k) + Shr(n, k) % 2 * Pow2(k)
    decreases k
  {
    if k == 0 {
      assert Low(n, 1) == n % 2 + 2 * Low(n / 2, 0);
    } else {
      LowNext(n / 2, k - 1);
      var b, p := Shr(n, k) % 2, Pow2(k - 1);
      assert b * (2 * p) == 2 * (b * p);
    }
  }

  lemma {:induction false} LowBelow(n: nat, k: nat)
    ensures Low(n, k) < Pow2(k)
    decreases k
  {
    if k > 0 {
      LowBelow(n / 2, k - 1);
    }
  }

  /** Above its highest bit a number adds nothing. */
  lemma {:induction false} LowStops(n: nat, i: nat, k: nat)
    requires i <= k && Shr(n, i) == 0
    ensures Low(n, k) == Low(n, i)
    decreases k
  {
    if i < k {
      ShrZero(n, i, k - 1);
      LowStops(n, i, k - 1);
      LowNext(n, k - 1);
    }
  }

  lemma {:induction false} ShrOfZero(k: nat)
    ensures Shr(0, k) == 0
    decreases k
  {
    if k > 0 {
      ShrOfZero(k - 1);
    }
  }

  lemma ShrZero(n: nat, i: nat, k: nat)
    requires i <= k && Shr(n, i) == 0
    ensures Shr(n, k) == 0
  {
    ShrShr(n, i, k - i);
    ShrOfZero(k - i);
  }

  lemma ShrNextOf(n: nat, j: nat)
    requires j > 0
    ensures Shr(n, j) == Shr(n / 2, j - 1)
  {
  }

  /** A number below 2^k does not reach into what lies above it. */
  lemma {:induction false} ShrBelow(d: nat, r: nat, k: nat, j: nat)
    requires d < Pow2(k) && j <= k
    ensures Shr(d + Pow2(k) * r, j) == Shr(d, j) + Pow2(k - j) * r
    decreases j
  {
    if j > 0 {
      var above := Pow2(k - 1) * r;
      TwiceTimes(Pow2(k - 1), r);
      ShrNextOf(d + 2 * above, j);
      HalfOfSum(d, above);
      ShrBelow(d / 2, r, k - 1, j - 1);
    }
  }

  // ---------------------------------------------------------------- bits of a payload

  /** data[i] & (1 << k) */
  predicate HasBit(b: byte, k: nat) { Shr(b, k) % 2 == 1 }

  /** The payload as a little-endian number. */
  function LittleValue(data: seq<byte>): nat {
    if data == [] then 0 else data[0] + 256 * LittleValue(data[1..])
  }

  predicate LittleBit(data: seq<byte>, j: nat) { j / 8 < |data| && HasBit(data[j / 8], j % 8) }

  /** Bits in a byte. */
  const OCTET: nat := 8

  lemma OctetPower()
    ensures Pow2(OCTET) == 256
  {
    assert Pow2(1) == 2 && Pow2(2) == 4 && Pow2(3) == 8 && Pow2(4) == 16;
    assert Pow2(5) == 32 && Pow2(6) == 64 && Pow2(7) == 128;
  }

  lemma {:induction false} ShrAll(d: nat, k: nat)
    requires d < Pow2(k)
    ensures Shr(d, k) == 0
    decreases k
  {
    if k > 0 {
      ShrAll(d / 2, k - 1);
    }
  }

  lemma ShrSum(d: nat, r: nat, k: nat)
    requires d < Pow2(k)
    ensures Shr(d + Pow2(k) * r, k) == r
  {
    ShrBelow(d, r, k, k);
    ShrAll(d, k);
  }

  lemma EvenDropsOut(x: nat, y: nat)
    ensures (x + 2 * y) % 2 == x % 2
  {
  }

  lemma LowBitOfSum(d: nat, r: nat, k: nat, j: nat)
    requires d < Pow2(k) && j < k
    ensures Shr(d + Pow2(k) * r, j) % 2 == Shr(d, j) % 2
  {
    ShrBelow(d, r, k, j);
    var p := Pow2(k - j - 1);
    assert Pow2(k - j) * r == 2 * (p * r);
    EvenDropsOut(Shr(d, j), p * r);
  }

  /** Of d + 2^k * r, the bits below k are those of d and the rest those of r. */
  lemma BitsOfSum(d: nat, r: nat, k: nat, j: nat)
    requires d < Pow2(k)
    ensures Shr(d + Pow2(k) * r, j) % 2 == if j < k then Shr(d, j) % 2 else Shr(r, j - k) % 2
  {
    if j < k {
      LowBitOfSum(d, r, k, j);
    } else {
      ShrSum(d, r, k);
      ShrShr(d + Pow2(k) * r, k, j - k);
    }
  }

  /** The bit j of the number is the bit of the payload. */
  lemma {:induction false} LittleValueBit(data: seq<byte>, j: nat)
    ensures Shr(LittleValue(data), j) % 2 == if LittleBit(data, j) then 1 else 0
    decreases |data|
  {
    if data == [] {
      ShrOfZero(j);
    } else {
      OctetPower();
      BitsOfSum(data[0], LittleValue(data[1..]), OCTET, j);
      if j >= OCTET {
        LittleValueBit(data[1..], j - OCTET);
        NextByte(data, j);
      } else {
        FirstByte(j);
      }
    }
  }

  lemma FirstByte(j: nat)
    requires j < 8
    ensures j / 8 == 0 && j % 8 == j
  {
  }

  lemma NextByte(data: seq<byte>, j: nat)
    requires data != [] && j >= 8
    ensures LittleBit(data, j) <==> LittleBit(data[1..], j - 8)
  {
    assert (j - 8) / 8 == j / 8 - 1 && (j - 8) % 8 == j % 8;
  }

  /** Beyond the payload there is nothing. */
  lemma {:induction false} LittleValueEnds(data: seq<byte>, j: nat)
    requires j >= 8 * |data|
    ensures Shr(LittleValue(data), j) == 0
    decreases |data|
  {
    if data == [] {
      ShrOfZero(j);
    } else {
      OctetPower();
      ShrSum(data[0], LittleValue(data[1..]), OCTET);
      ShrShr(LittleValue(data), OCTET, j - OCTET);
      LittleValueEnds(data[1..], j - OCTET);
    }
  }

  // ---------------------------------------------------------------- big-endian bits

  /** The payload as a big-endian number, m bytes of it: zeros follow where it ends. */
  function BigValue(data: seq<byte>, m: nat): nat {
    if m == 0 then 0 else BigValue(data, m - 1) * 256 + ByteAt(data, m - 1)
  }

  function ByteAt(data: seq<byte>, i: nat): byte { if i < |data| then data[i] else 0 }

  /** The bit at position p of the bit string, the highest bit of each byte first. */
  predicate BigBit(data: seq<byte>, p: nat) { p / 8 < |data| && HasBit(data[p / 8], 7 - p % 8) }

  lemma LastByte(p: nat, m: nat)
    requires m > 0 && 8 * m - 8 <= p < 8 * m
    ensures p / 8 == m - 1 && p % 8 == p - 8 * (m - 1)
  {
    Split(p, 8, m - 1, p - 8 * (m - 1));
  }

  lemma {:induction false} BigValueBit(data: seq<byte>, m: nat, p: nat)
    requires p < 8 * m
    ensures Shr(BigValue(data, m), 8 * m - 1 - p) % 2 == if BigBit(data, p) then 1 else 0
    decreases m
  {
    var d, r, j := ByteAt(data, m - 1), BigValue(data, m - 1), 8 * m - 1 - p;
    OctetPower();
    assert Pow2(OCTET) * r == r * 256;
    BitsOfSum(d, r, OCTET, j);
    if j < OCTET {
      LastByte(p, m);
      LastByteBit(data, m - 1, p, j);
    } else {
      BigValueBit(data, m - 1, p);
    }
  }

  lemma LastByteBit(data: seq<byte>, i: nat, p: nat, j: nat)
    requires p / 8 == i && j < 8 && p % 8 == 7 - j
    ensures Shr(ByteAt(data, i), j) % 2 == if BigBit(data, p) then 1 else 0
  {
    if i >= |data| {
      ShrOfZero(j);
    }
  }

  /** The bits from position p on as a number, the first the most significant. */
  function SliceValue(data: seq<byte>, p: nat, length: nat): nat {
    if length == 0 then 0
    else 2 * SliceValue(data, p, length - 1) + (if BigBit(data, p + length - 1) then 1 else 0)
  }

  /** A slice of the bit string is the number cut at both ends, however far the payload is
      taken to go on with zeros. */
  lemma {:induction false} SliceIsCut(data: seq<byte>, p: nat, length: nat, m: nat)
    requires p + length <= 8 * m
    ensures SliceValue(data, p, length) == Low(Shr(BigValue(data, m), 8 * m - p - length), length)
    decreases length
  {
    if length > 0 {
      var n, s := BigValue(data, m), 8 * m - p - length;
      SliceIsCut(data, p, length - 1, m);
      ShrNext(n, s);
      BigValueBit(data, m, p + length - 1);
    }
  }

  // ---------------------------------------------------------------- the loops

  /** raw |= 1 << k */
  function SetBit(raw: nat, k: nat): nat
    decreases k
  {
    if k == 0 then raw / 2 * 2 + 1 else raw % 2 + 2 * SetBit(raw / 2, k - 1)
  }

  lemma {:induction false} SetClearBit(raw: nat, k: nat)
    requires Shr(raw, k) % 2 == 0
    ensures SetBit(raw, k) == raw + Pow2(k)
    decreases k
  {
    if k > 0 {
      SetClearBit(raw / 2, k - 1);
    }
  }

  lemma SetHighBit(raw: nat, k: nat)
    requires raw < Pow2(k)
    ensures SetBit(raw, k) == raw + Pow2(k)
  {
    ShrAll(raw, k);
    SetClearBit(raw, k);
  }

  lemma SetLowBit(v: nat, k: nat)
    ensures SetBit(v * Pow2(k + 1), k) == v * Pow2(k + 1) + Pow2(k)
  {
    Pow2Positive(k);
    assert v * Pow2(k + 1) == 0 + Pow2(k) * (2 * v);
    ShrSum(0, 2 * v, k);
    SetClearBit(v * Pow2(k + 1), k);
  }

  lemma Pow2Positive(k: nat)
    ensures 0 < Pow2(k)
  {
  }

  /** floor(LE(data) / 2^start) mod 2^length */
  function LittleRaw(data: seq<byte>, start: nat, length: nat): nat { Low(Shr(LittleValue(data), start), length) }

  lemma LittleTurn(data: seq<byte>, start: nat, i: nat)
    ensures LittleRaw(data, start, i + 1)
      == LittleRaw(data, start, i) + (if LittleBit(data, start + i) then Pow2(i) else 0)
    ensures LittleRaw(data, start, i) < Pow2(i)
  {
    var n := Shr(LittleValue(data), start);
    LowNext(n, i);
    LowBelow(n, i);
    ShrShr(LittleValue(data), start, i);
    LittleValueBit(data, start + i);
    TimesBit(Shr(n, i) % 2, Pow2(i));
  }

  lemma TimesBit(b: nat, p: nat)
    requires b < 2
    ensures b * p == if b == 1 then p else 0
  {
  }

  lemma LittleStops(data: seq<byte>, start: nat, i: nat, length: nat)
    requires i <= length && start + i >= 8 * |data|
    ensures LittleRaw(data, start, length) == LittleRaw(data, start, i)
  {
    LittleValueEnds(data, start + i);
    ShrShr(LittleValue(data), start, i);
    LowStops(Shr(LittleValue(data), start), i, length);
  }

  lemma ByteBeyond(bit: nat, n: nat)
    requires bit / 8 >= n
    ensures bit >= 8 * n
  {
  }

  method ExtractLittle(data: seq<byte>, start: nat, length: nat) returns (raw: nat)
    ensures raw == LittleRaw(data, start, length)
  {
    raw := 0;
    var i := 0;
    while i < length
      invariant i <= length && raw == LittleRaw(data, start, i)
    {
      var bit := start + i;
      if bit / 8 >= |data| {
        ByteBeyond(bit, |data|);
        LittleStops(data, start, i, length);
        return;
      }
      LittleTurn(data, start, i);
      if HasBit(data[bit / 8], bit % 8) {
        SetHighBit(raw, i);
        raw := SetBit(raw, i);
      }
      i := i + 1;
    }
  }

  /** Where a big-endian signal's most significant bit stands in the bit string. */
  function BigStart(start: nat): nat { start / 8 * 8 + (7 - start % 8) }

  /** The first i bits of a signal, in the places they will have. */
  function Filled(data: seq<byte>, p: nat, i: nat, length: nat): nat
    requires i <= length
  {
    SliceValue(data, p, i) * Pow2(length - i)
  }

  lemma BigTurn(data: seq<byte>, p: nat, i: nat, length: nat)
    requires i < length
    ensures Filled(data, p, i + 1, length)
         == if BigBit(data, p + i) then SetBit(Filled(data, p, i, length), length - 1 - i)
           else Filled(data, p, i, length)
  {
    var v, k := SliceValue(data, p, i), length - 1 - i;
    SetLowBit(v, k);
    OneBitMore(v, Pow2(k));
    assert Pow2(k + 1) == 2 * Pow2(k);
  }

  lemma OneBitMore(v: nat, p: nat)
    ensures (2 * v) * p == v * (2 * p) && (2 * v + 1) * p == (2 * v) * p + p
  {
  }

  lemma FilledEnds(data: seq<byte>, p: nat, length: nat)
    ensures Filled(data, p, 0, length) == 0 && Filled(data, p, length, length) == SliceValue(data, p, length)
  {
  }

  lemma CursorBit(data: seq<byte>, p: nat, byteIndex: nat, bitIndex: nat)
    requires bitIndex < 8 && byteIndex * 8 + (7 - bitIndex) == p
    ensures BigBit(data, p) <==> byteIndex < |data| && HasBit(data[byteIndex], bitIndex)
  {
    Split(p, 8, byteIndex, 7 - bitIndex);
  }

  method ExtractBig(data: seq<byte>, start: nat, length: nat) returns (raw: nat)
    ensures raw == SliceValue(data, BigStart(start), length)
  {
    ghost var p := BigStart(start);
    FilledEnds(data, p, length);
    raw := 0;
    var byteIndex: nat, bitIndex: nat := start / 8, start % 8;
    var i := 0;
    while i < length
      invariant i <= length && bitIndex < 8 && byteIndex * 8 + (7 - bitIndex) == p + i
      invariant raw == Filled(data, p, i, length)
    {
      BigTurn(data, p, i, length);
      CursorBit(data, p + i, byteIndex, bitIndex);
      if byteIndex < |data| && HasBit(data[byteIndex], bitIndex) {
        raw := SetBit(raw, length - 1 - i);
      }
      if bitIndex == 0 {
        bitIndex, byteIndex := 7, byteIndex + 1;
      } else {
        bitIndex := bitIndex - 1;
      }
      i := i + 1;
    }
  }

  /** extract_raw: a length outside 1..64 or a negative start bit reads as zero. */
  function Raw(data: seq<byte>, start: int, length: int, order: ByteOrder): nat {
    if length <= 0 || length > 64 || start < 0 then 0
    else if order == LittleEndian then LittleRaw(data, start, length)
    else SliceValue(data, BigStart(start), length)
  }

  method ExtractRaw(data: seq<byte>, start: int, length: int, order: ByteOrder) returns (raw: nat)
    ensures raw == Raw(data, start, length, order)
    ensures length < 1 || length > 64 || start < 0 ==> raw == 0
  {
    if length <= 0 || length > 64 || start < 0 {
      return 0;
    }
    match order
    case LittleEndian => raw := ExtractLittle(data, start, length);
    case BigEndian => raw := ExtractBig(data, start, length);
  }

  /** For a signal that starts at bit k of octet b: little-endian the value is
      floor(LE(data) / 2^start) mod 2^length; big-endian it is the same cut of the big-endian
      number of the payload with zeros behind it, its most significant bit at k. */
  lemma RawIsArithmetic(data: seq<byte>, start: nat, b: nat, k: nat, length: nat, m: nat)
    requires start == 8 * b + k && k < 8 && 1 <= length <= 64
    ensures Raw(data, start, length, LittleEndian) == LittleValue(data) / Pow2(start) % Pow2(length)
    ensures 8 * b + 7 - k + length <= 8 * m ==>
      Raw(data, start, length, BigEndian)
        == BigValue(data, m) / Pow2(8 * m - (8 * b + 7 - k) - length) % Pow2(length)
  {
    LittleIsArithmetic(data, start, length);
    StartOctet(start, b, k);
    if 8 * b + 7 - k + length <= 8 * m {
      SliceIsArithmetic(data, 8 * b + 7 - k, length, m);
    }
  }

  lemma StartOctet(start: nat, b: nat, k: nat)
    requires start == 8 * b + k && k < 8
    ensures BigStart(start) == 8 * b + 7 - k
  {
    Split(start, 8, b, k);
  }

  lemma LittleIsArithmetic(data: seq<byte>, start: nat, length: nat)
    ensures LittleRaw(data, start, length) == LittleValue(data) / Pow2(start) % Pow2(length)
  {
    ShrIsDivision(LittleValue(data), start);
    LowIsRemainder(Shr(LittleValue(data), start), length);
  }

  lemma SliceIsArithmetic(data: seq<byte>, p: nat, length: nat, m: nat)
    requires p + length <= 8 * m
    ensures SliceValue(data, p, length) == BigValue(data, m) / Pow2(8 * m - p - length) % Pow2(length)
  {
    var s := 8 * m - p - length;
    SliceIsCut(data, p, length, m);
    ShrIsDivision(BigValue(data, m), s);
    LowIsRemainder(Shr(BigValue(data, m), s), length);
  }

  lemma {:induction false} LowKeepsBits(n: nat, k: nat, i: nat)
    requires i < k
    ensures Shr(Low(n, k), i) % 2 == Shr(n, i) % 2
    decreases k
  {
    var low := Low(n / 2, k - 1);
    Split(n % 2 + 2 * low, 2, low, n % 2);
    if i > 0 {
      ShrNextOf(n, i);
      ShrNextOf(Low(n, k), i);
      LowKeepsBits(n / 2, k - 1, i - 1);
    }
  }

  lemma {:induction false} SliceBit(data: seq<byte>, p: nat, length: nat, i: nat)
    requires i < length
    ensures Shr(SliceValue(data, p, length), length - 1 - i) % 2 == 1 <==> BigBit(data, p + i)
    decreases length
  {
    var v, w := SliceValue(data, p, length), SliceValue(data, p, length - 1);
    Split(v, 2, w, if BigBit(data, p + length - 1) then 1 else 0);
    if i < length - 1 {
      SliceBit(data, p, length - 1, i);
      ShrNextOf(v, length - 1 - i);
    }
  }

  lemma BitIsShifted(n: nat, i: nat)
    ensures BitAt(n, i) <==> Shr(n, i) % 2 == 1
  {
    ShrIsDivision(n, i);
  }

  /** Which bit of which octet bit i of the value is, counted from the lowest for little-endian
      signals and from the highest for big-endian ones; beyond the payload bits are 0. */
  lemma RawBits(data: seq<byte>, b: nat, k: nat, length: nat, i: nat)
    requires k < 8 && 1 <= length <= 64 && i < length
    ensures var j := 8 * b + k + i;
      BitAt(Raw(data, 8 * b + k, length, LittleEndian), i) <==> j / 8 < |data| && BitAt(data[j / 8], j % 8)
    ensures var j, raw := 8 * b + 7 - k + i, Raw(data, 8 * b + k, length, BigEndian);
      BitAt(raw, length - 1 - i) <==> j / 8 < |data| && BitAt(data[j / 8], 7 - j % 8)
  {
    LittleBits(data, 8 * b + k, length, i);
    BigBits(data, b, k, length, i);
  }

  lemma LittleBits(data: seq<byte>, start: nat, length: nat, i: nat)
    requires 1 <= length <= 64 && i < length
    ensures var j := start + i;
      BitAt(Raw(data, start, length, LittleEndian), i) <==> j / 8 < |data| && BitAt(data[j / 8], j % 8)
  {
    LittleRawBit(data, start, length, i);
  }

  lemma BigBits(data: seq<byte>, b: nat, k: nat, length: nat, i: nat)
    requires k < 8 && 1 <= length <= 64 && i < length
    ensures var j, raw := 8 * b + 7 - k + i, Raw(data, 8 * b + k, length, BigEndian);
      BitAt(raw, length - 1 - i) <==> j / 8 < |data| && BitAt(data[j / 8], 7 - j % 8)
  {
    RawIsSlice(data, b, k, length);
    SliceRawBit(data, 8 * b + 7 - k, length, i);
  }

  lemma RawIsSlice(data: seq<byte>, b: nat, k: nat, length: nat)
    requires k < 8 && 1 <= length <= 64
    ensures Raw(data, 8 * b + k, length, BigEndian) == SliceValue(data, 8 * b + 7 - k, length)
  {
    StartOctet(8 * b + k, b, k);
  }

  lemma SliceRawBit(data: seq<byte>, p: nat, length: nat, i: nat)
    requires i < length
    ensures var j := p + i;
      BitAt(SliceValue(data, p, length), length - 1 - i) <==> j / 8 < |data| && BitAt(data[j / 8], 7 - j % 8)
  {
    var j := p + i;
    SliceBit(data, p, length, i);
    BitIsShifted(SliceValue(data, p, length), length - 1 - i);
    if j / 8 < |data| {
      BitIsShifted(data[j / 8], 7 - j % 8);
    }
  }

  lemma LittleRawBit(data: seq<byte>, start: nat, length: nat, i: nat)
    requires i < length
    ensures var j := start + i;
      BitAt(LittleRaw(data, start, length), i) <==> j / 8 < |data| && BitAt(data[j / 8], j % 8)
  {
    var n, j := Shr(LittleValue(data), start), start + i;
    LowKeepsBits(n, length, i);
    ShrShr(LittleValue(data), start, i);
    LittleValueBit(data, j);
    BitIsShifted(LittleRaw(data, start, length), i);
    if j / 8 < |data| {
      BitIsShifted(data[j / 8], j % 8);
    }
  }

  /** A signal over a whole first octet is that octet, in both orders. */
  lemma WholeOctet(data: seq<byte>, zero: nat, seven: nat, eight: nat)
    requires |data| >= 1 && zero == 0 && seven == 7 && eight == 8
    ensures Raw(data, seven, eight, BigEndian) == data[0]
    ensures Raw(data, zero, eight, LittleEndian) == data[0]
  {
    StartOctet(seven, 0, 7);
    WholeSlice(data, eight, 1);
    WholeLittle(data, zero, eight);
  }

  lemma WholeLittle(data: seq<byte>, zero: nat, eight: nat)
    requires |data| >= 1 && zero == 0 && eight == 8
    ensures LittleRaw(data, zero, eight) == data[0]
  {
    LowIsRemainder(LittleValue(data), eight);
    OctetPower();
    FirstOctetOf(data);
  }

  lemma WholeSlice(data: seq<byte>, eight: nat, one: nat)
    requires |data| >= 1 && eight == 8 && one == 1
    ensures SliceValue(data, 0, eight) == data[0]
  {
    SliceIsArithmetic(data, 0, eight, one);
    OctetPower();
    assert BigValue(data, one) == BigValue(data, one - 1) * 256 + ByteAt(data, 0);
    SmallModulus(data[0], 256);
  }

  lemma FirstOctetOf(data: seq<byte>)
    requires |data| >= 1
    ensures LittleValue(data) % 256 == data[0]
  {
    Split(LittleValue(data), 256, LittleValue(data[1..]), data[0]);
  }

  lemma RawBelow(data: seq<byte>, start: int, length: int, order: ByteOrder)
    requires 0 <= length
    ensures Raw(data, start, length, order) < Pow2(length)
  {
    if 1 <= length <= 64 && start >= 0 {
      var m := BigStart(start) + length;
      SliceIsCut(data, BigStart(start), length, m);
      LowBelow(Shr(LittleValue(data), start), length);
      LowBelow(Shr(BigValue(data, m), 8 * m - BigStart(start) - length), length);
    }
  }

  // ---------------------------------------------------------------- the sign

  /** An int64_t, by wrap-around. */
  function Wrap64(x: int): int {
    var r := x % 0x1_0000_0000_0000_0000;
    if r < 0x8000_0000_0000_0000 then r else r - 0x1_0000_0000_0000_0000
  }

  /** v is what length bits of two's complement mean by raw. */
  ghost predicate Means(v: int, raw: nat, length: nat)
    requires length >= 1
  {
    -(Pow2(length - 1) as int) <= v < Pow2(length - 1) && (v == raw || v == raw - Pow2(length))
  }

  /** There is one such value, and every value congruent to it in range is it. */
  lemma MeansIsUnique(v: int, w: int, raw: nat, length: nat, q: int)
    requires length >= 1 && Means(v, raw, length)
    requires -(Pow2(length - 1) as int) <= w < Pow2(length - 1) && w == raw + q * Pow2(length)
    ensures w == v
  {
    var k := if v == raw then q else q + 1;
    assert (q + 1) * Pow2(length) == q * Pow2(length) + Pow2(length);
    assert w == v + k * Pow2(length);
    TimesAtLeast(k, Pow2(length));
  }

  lemma HighestBit(raw: nat, length: nat)
    requires length >= 1 && raw < Pow2(length)
    ensures Shr(raw, length - 1) % 2 == 1 <==> raw >= Pow2(length - 1)
  {
    if raw < Pow2(length - 1) {
      ShrAll(raw, length - 1);
    } else {
      var d := raw - Pow2(length - 1);
      ShrSum(d, 1, length - 1);
    }
  }

  lemma {:induction false} Pow2Sum(a: nat, b: nat)
    ensures Pow2(a + b) == Pow2(a) * Pow2(b)
  {
    if a > 0 {
      Pow2Sum(a - 1, b);
      TwiceTimes(Pow2(a - 1), Pow2(b));
    }
  }

  lemma {:induction false} Pow2Grows(a: nat, b: nat)
    requires a <= b
    ensures Pow2(a) <= Pow2(b)
  {
    if a < b {
      Pow2Grows(a, b - 1);
    }
  }

  /** The highest bit of an int64_t. */
  const SIGN: nat := 63

  lemma SignPower(a: nat)
    requires Pow2(a) == 256 && a > 0
    ensures Pow2(8 * a - 1) == 0x8000_0000_0000_0000 && Pow2(8 * a - 2) == 0x4000_0000_0000_0000
  {
    Pow2Sum(a, a);
    Pow2Sum(2 * a, 2 * a);
    Pow2Sum(4 * a, 4 * a);
    assert Pow2(8 * a) == 2 * Pow2(8 * a - 1) == 4 * Pow2(8 * a - 2);
  }

  /** 2^length fits an int64_t but for length 63, where it is the lowest one. */
  lemma WordPowers(length: nat)
    requires 1 <= length
    ensures length <= 62 ==> Pow2(length) <= 0x4000_0000_0000_0000
    ensures length == 63 ==> Pow2(length) == 0x8000_0000_0000_0000
    ensures length == 64 ==> Pow2(length - 1) == 0x8000_0000_0000_0000
  {
    OctetPower();
    SignPower(OCTET);
    if length <= SIGN - 1 {
      Pow2Grows(length, SIGN - 1);
    }
  }

  lemma WrapIs(x: int, q: int, r: int)
    requires x == q * 0x1_0000_0000_0000_0000 + r && 0 <= r < 0x1_0000_0000_0000_0000
    ensures Wrap64(x) == if r < 0x8000_0000_0000_0000 then r else r - 0x1_0000_0000_0000_0000
  {
    Split(x, 0x1_0000_0000_0000_0000, q, r);
  }

  /** Takes p off if negative, as int64_t arithmetic does it. */
  function SignStep(raw: nat, p: nat, negative: bool): int {
    if negative then Wrap64(Wrap64(raw) - Wrap64(p)) else Wrap64(raw)
  }

  lemma SignStepValue(raw: nat, p: nat)
    requires raw < p && (p <= 0x4000_0000_0000_0000 || p == 0x8000_0000_0000_0000) && 2 * raw >= p
    ensures SignStep(raw, p, true) == raw - p
  {
    WrapIs(raw, 0, raw);
    WrapIs(p, 0, p);
    if p <= 0x4000_0000_0000_0000 {
      WrapIs(raw - p, -1, raw - p + 0x1_0000_0000_0000_0000);
    } else {
      WrapIs(raw + p, 0, raw + p);
    }
  }

  /** The sign step: a set top bit takes 2^length off. */
  function SignExtended(raw: nat, length: nat): int
    requires length >= 1
  {
    SignStep(raw, Pow2(length), Shr(raw, length - 1) % 2 == 1)
  }

  lemma SignExtendedValue(raw: nat, length: nat)
    requires 1 <= length <= 64 && raw < Pow2(length) && (length == 64 ==> raw < 0x8000_0000_0000_0000)
    ensures SignExtended(raw, length) == if raw >= Pow2(length - 1) then raw - Pow2(length) else raw
  {
    HighestBit(raw, length);
    WordPowers(length);
    PowNext(length);
    if raw >= Pow2(length - 1) {
      SignStepValue(raw, Pow2(length));
    } else {
      SmallWord(raw, Pow2(length - 1));
    }
  }

  lemma PowNext(length: nat)
    requires length >= 1
    ensures Pow2(length) == 2 * Pow2(length - 1)
  {
  }

  lemma SignedMeans(raw: nat, length: nat)
    requires 1 <= length <= 64 && raw < Pow2(length) && (length == 64 ==> raw < 0x8000_0000_0000_0000)
    ensures Means(SignExtended(raw, length), raw, length)
  {
    SignExtendedValue(raw, length);
    PowNext(length);
  }

  lemma SmallWord(raw: nat, p: nat)
    requires raw < p <= 0x8000_0000_0000_0000
    ensures Wrap64(raw) == raw
  {
    WrapIs(raw, 0, raw);
  }

  predicate IsInt64(x: int) { -0x8000_0000_0000_0000 <= x < 0x8000_0000_0000_0000 }

  /** Where the sign step needs the subtraction to wrap around: 2^63 is itself no int64_t, and
      what it stands for, -2^63, taken off any number of 63 bits leaves the type. */
  lemma SignStepOverflowsExactly(raw: nat, length: nat)
    requires 1 <= length <= 63 && Pow2(length - 1) <= raw < Pow2(length)
    ensures IsInt64(Wrap64(raw) - Wrap64(Pow2(length))) <==> length != 63
  {
    WordPowers(length);
    WrapIs(raw, 0, raw);
    WrapIs(Pow2(length), 0, Pow2(length));
  }

  /** The integer Signal::decode scales, and how the source comes by it. */
  datatype Decoded =
    | Exact(v: int)     // no operation leaves its type
    | Wrapped(v: int)   // the subtraction overflows and is right only if it wraps around
    | Undefined         // 1 is shifted by the width of the word

  /** Raw, or for a signed signal its two's complement. With the top bit set, at length 63 the
      value is right only by wrap-around and at length 64 the source leaves it undefined. */
  method DecodeInteger(data: seq<byte>, start: int, length: int, order: ByteOrder, isSigned: bool) returns (d: Decoded)
    ensures var raw := Raw(data, start, length, order);
      && (d.Undefined? <==> isSigned && length == 64 && raw >= 0x8000_0000_0000_0000)
      && (d.Wrapped? <==> isSigned && length == 63 && raw >= 0x4000_0000_0000_0000)
      && (!d.Undefined? && isSigned && 1 <= length <= 64 ==> Means(d.v, raw, length))
      && (!d.Undefined? && (!isSigned || length < 1 || length > 64) ==> d.v == raw)
  {
    var raw := ExtractRaw(data, start, length, order);
    if length <= 0 || length > 64 || !isSigned {
      return Exact(raw);
    }
    RawBelow(data, start, length, order);
    WordPowers(length);
    HighestBit(raw, length);
    var negative := Shr(raw, length - 1) % 2 == 1;
    if length == 64 && negative {
      return Undefined;
    }
    SignedMeans(raw, length);
    var v := SignExtended(raw, length);
    d := if length == 63 && negative then Wrapped(v) else Exact(v);
  }
}
