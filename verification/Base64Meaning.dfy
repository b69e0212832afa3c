/** What base64 text stands for (section 4 of RFC 4648): a string of bits, six to a letter and
    eight to an octet. */
module Base64Meaning {
  import opened Base64
  import opened BitMath
  import opened Bytes
  import opened Division
  import opened Sequences

  const ALPHABET: string := "ABCDEFGHIJKLMNOPQRSTUVWXYZ" + "abcdefghijklmnopqrstuvwxyz" + "0123456789+/"

  // ---------------------------------------------------------------- the alphabet

  lemma UpperCase(v: sextet)
    requires v < 26
    ensures Letter(v) == "ABCDEFGHIJKLMNOPQRSTUVWXYZ"[v]
  {
    assert "ABCDEFGHIJKLMNOPQRSTUVWXYZ"[v] as int == 65 + v;
  }

  lemma LowerCase(v: sextet)
    requires 26 <= v < 52
    ensures Letter(v) == "abcdefghijklmnopqrstuvwxyz"[v - 26]
  {
    assert "abcdefghijklmnopqrstuvwxyz"[v - 26] as int == 97 + (v - 26);
  }

  lemma Others(v: sextet)
    requires 52 <= v
    ensures Letter(v) == "0123456789+/"[v - 52]
  {
  }

  /** The letter of a value is the one at its place in the alphabet. */
  lemma LetterIs(v: sextet)
    ensures Letter(v) == ALPHABET[v]
  {
    if v < 26 { UpperCase(v); } else if v < 52 { LowerCase(v); } else { Others(v); }
  }

  /** And the value of a character is its place; it is negative if it has none. */
  lemma ValueIs(c: char, v: sextet)
    ensures Value(c) == v <==> ALPHABET[v] == c
    ensures Value(c) < 64
  {
    LetterIs(v);
    LetterValue(v);
  }

  // ---------------------------------------------------------------- bits

  /** The last k bits of n, the most significant first. */
  function BitsOf(n: nat, k: nat): (r: seq<bool>)
    ensures |r| == k
  {
    if k == 0 then [] else BitsOf(n / 2, k - 1) + [n % 2 == 1]
  }

  /** k bits of each number in turn. */
  function Bits(x: seq<nat>, k: nat): (r: seq<bool>)
    ensures |r| == k * |x|
  {
    if x == [] then []
    else
      assert k * |x| == k + k * |x[1..]|;
      BitsOf(x[0], k) + Bits(x[1..], k)
  }

  /** The high bits, then the low two. */
  lemma SplitTwo(n: nat, k: nat)
    ensures BitsOf(n, k + 2) == BitsOf(n / 4, k) + BitsOf(n % 4, 2)
  {
    assert n / 2 / 2 == n / 4 && n % 4 / 2 == n / 2 % 2 && n % 4 % 2 == n % 2;
    assert BitsOf(n, k + 2) == BitsOf(n / 2 / 2, k) + [n / 2 % 2 == 1] + [n % 2 == 1];
    assert BitsOf(n % 4, 2) == BitsOf(n % 4 / 2, 1) + [n % 4 % 2 == 1];
    assert BitsOf(n % 4 / 2, 1) == [n % 4 / 2 % 2 == 1];
  }

  /** Two more low bits. */
  lemma SplitMore(n: nat, k: nat, low: nat, high: nat, rest: nat)
    requires BitsOf(n / 4, k + low) == BitsOf(high, k) + BitsOf(rest / 4, low) && rest % 4 == n % 4
    ensures BitsOf(n, k + (low + 2)) == BitsOf(high, k) + BitsOf(rest, low + 2)
  {
    SplitTwo(n, k + low);
    SplitTwo(rest, low);
    ConcatAssociates(BitsOf(high, k), BitsOf(rest / 4, low), BitsOf(n % 4, 2));
  }

  lemma SplitFour(n: nat, k: nat)
    ensures BitsOf(n, k + 4) == BitsOf(n / 16, k) + BitsOf(n % 16, 4)
  {
    SplitTwo(n / 4, k);
    assert n / 4 / 4 == n / 16 && n % 16 / 4 == n / 4 % 4 && n % 16 % 4 == n % 4;
    SplitMore(n, k, 2, n / 16, n % 16);
  }

  lemma SplitSix(n: nat, k: nat)
    ensures BitsOf(n, k + 6) == BitsOf(n / 64, k) + BitsOf(n % 64, 6)
  {
    SplitFour(n / 4, k);
    assert n / 4 / 16 == n / 64 && n % 64 / 4 == n / 4 % 16 && n % 64 % 4 == n % 4;
    SplitMore(n, k, 4, n / 64, n % 64);
  }

  lemma {:induction false} HigherBits(n: nat, q: nat, k: nat)
    ensures BitsOf(q * Pow2(k) + n, k) == BitsOf(n, k)
    decreases k
  {
    if k > 0 {
      var e := q * Pow2(k - 1);
      assert q * Pow2(k) == 2 * e;
      assert (2 * e + n) / 2 == e + n / 2 && (2 * e + n) % 2 == n % 2;
      HigherBits(n / 2, q, k - 1);
    }
  }

  lemma LastEight(n: nat)
    ensures BitsOf(Low8(n), 8) == BitsOf(n, 8)
  {
    assert Pow2(4) == 16 && Pow2(8) == 256;
    HigherBits(n % 256, n / 256, 8);
  }

  lemma FirstBits(d: nat, x: seq<nat>, k: nat)
    ensures Bits([d] + x, k) == BitsOf(d, k) + Bits(x, k)
  {
    assert ([d] + x)[1..] == x;
  }

  // ---------------------------------------------------------------- decoding

  /** The values of the letters up to the first '=', other characters left out. */
  function Sextets(s: string): seq<sextet> {
    if s == "" || s[0] == '=' then []
    else if Value(s[0]) < 0 then Sextets(s[1..])
    else [Value(s[0])] + Sextets(s[1..])
  }

  /** The octets out are as many as the bits in hand and those to come make, and are made of
      them. */
  ghost predicate GivesOut(out: seq<byte>, pending: nat, x: seq<sextet>, bits: nat) {
    |out| == (bits + 6 * |x|) / 8 && Bits(out, 8) <= BitsOf(pending, bits) + Bits(x, 6)
  }

  lemma TakesLetter(out: seq<byte>, pending: nat, v: sextet, x: seq<sextet>, bits: nat)
    requires GivesOut(out, pending * 64 + v, x, bits + 6)
    ensures GivesOut(out, pending, [v] + x, bits)
  {
    Split(pending * 64 + v, 64, pending, v);
    assert bits + 6 + 6 * |x| == bits + 6 * |[v] + x|;
    SplitSix(pending * 64 + v, bits);
    FirstBits(v, x, 6);
    ConcatAssociates(BitsOf(pending, bits), BitsOf(v, 6), Bits(x, 6));
  }

  lemma OctetBits(acc: nat, bits: spare)
    requires 2 <= bits
    ensures BitsOf(acc, bits + 6) == BitsOf(Low8(Above(acc, bits - 2)), 8) + BitsOf(Below(acc, bits - 2), bits - 2)
  {
    LastEight(Above(acc, bits - 2));
    if bits == 2 {
      assert BitsOf(acc, 8) + [] == BitsOf(acc, 8);
    } else if bits == 4 {
      SplitTwo(acc, 8);
    } else {
      SplitFour(acc, 8);
    }
  }

  /** One letter that completes an octet. */
  lemma OctetMeans(acc: nat, bits: spare, x: seq<sextet>, out: seq<byte>)
    requires 2 <= bits && GivesOut(out, Below(acc, bits - 2), x, bits - 2)
    ensures GivesOut([Low8(Above(acc, bits - 2))] + out, acc, x, bits + 6)
  {
    var b, low := Low8(Above(acc, bits - 2)), BitsOf(Below(acc, bits - 2), bits - 2);
    OctetBits(acc, bits);
    FirstBits(b, out, 8);
    ConcatAssociates(BitsOf(b, 8), low, Bits(x, 6));
  }

  /** The bits kept of a letter, the octet it completes, if any, and how many it leaves. */
  function Kept(acc: nat, bits: spare): nat { if bits >= 2 then Below(acc, bits - 2) else acc }

  function Completed(acc: nat, bits: spare): seq<byte> { if bits >= 2 then [Low8(Above(acc, bits - 2))] else [] }

  function Left(bits: spare): spare { if bits >= 2 then bits - 2 else 6 }

  lemma LetterDecodes(s: string, v: sextet, pending: nat, bits: spare)
    requires s != "" && s[0] != '=' && Value(s[0]) == v
    ensures var acc := pending * 64 + v;
      DecodePending(s, pending, bits) == Completed(acc, bits) + DecodePending(s[1..], Kept(acc, bits), Left(bits))
  {
    var acc := pending * 64 + v;
    var rest := DecodePending(s[1..], Kept(acc, bits), Left(bits));
    assert [] + rest == rest;
  }

  lemma LetterGives(acc: nat, bits: spare, x: seq<sextet>, out: seq<byte>)
    requires GivesOut(out, Kept(acc, bits), x, Left(bits))
    ensures GivesOut(Completed(acc, bits) + out, acc, x, bits + 6)
  {
    if bits >= 2 {
      OctetMeans(acc, bits, x, out);
    } else {
      assert [] + out == out;
    }
  }

  lemma LetterMeans(s: string, v: sextet, pending: nat, bits: spare, x: seq<sextet>, rest: seq<byte>)
    requires s != "" && s[0] != '=' && Value(s[0]) == v
    requires rest == DecodePending(s[1..], Kept(pending * 64 + v, bits), Left(bits))
    requires GivesOut(rest, Kept(pending * 64 + v, bits), x, Left(bits))
    ensures GivesOut(DecodePending(s, pending, bits), pending, [v] + x, bits)
  {
    LetterDecodes(s, v, pending, bits);
    LetterGives(pending * 64 + v, bits, x, rest);
    TakesLetter(Completed(pending * 64 + v, bits) + rest, pending, v, x, bits);
  }

  /** What the decoder gives out of the bits in hand and the letters to come. */
  lemma {:induction false} PendingMeans(s: string, pending: nat, bits: spare)
    ensures GivesOut(DecodePending(s, pending, bits), pending, Sextets(s), bits)
    decreases |s|
  {
    if s != "" && s[0] != '=' {
      if Value(s[0]) < 0 {
        PendingMeans(s[1..], pending, bits);
      } else {
        var v: sextet := Value(s[0]);
        var kept := Kept(pending * 64 + v, bits);
        PendingMeans(s[1..], kept, Left(bits));
        LetterMeans(s, v, pending, bits, Sextets(s[1..]), DecodePending(s[1..], kept, Left(bits)));
      }
    }
  }

  /** Decoding any text whatever: the octets are the bits of its letters, in their order, as
      far as they make whole octets. */
  lemma DecodedMeans(s: string)
    ensures |Decoded(s)| == 6 * |Sextets(s)| / 8
    ensures Bits(Decoded(s), 8) == Bits(Sextets(s), 6)[..8 * |Decoded(s)|]
  {
    WrapNeverShows(s, 0, 0);
    PendingMeans(s, 0, 0);
    assert BitsOf(0, 0) + Bits(Sextets(s), 6) == Bits(Sextets(s), 6);
  }

  // ---------------------------------------------------------------- encoding

  /** The letters of the values. */
  function Written(x: seq<sextet>): (s: string)
    ensures |s| == |x| && forall i :: 0 <= i < |x| ==> s[i] == Letter(x[i])
  {
    if x == [] then "" else [Letter(x[0])] + Written(x[1..])
  }

  lemma {:induction false} SextetsWritten(x: seq<sextet>, pad: string)
    requires pad == "" || pad[0] == '='
    ensures Sextets(Written(x) + pad) == x
  {
    if x == [] {
      assert Written(x) + pad == pad;
    } else {
      SextetsWritten(x[1..], pad);
      LetterValue(x[0]);
      assert (Written(x) + pad)[1..] == Written(x[1..]) + pad;
    }
  }

  lemma {:induction false} BitsConcat(x: seq<nat>, y: seq<nat>, k: nat)
    ensures Bits(x + y, k) == Bits(x, k) + Bits(y, k)
  {
    if x == [] {
      assert x + y == y;
      assert Bits(x, k) + Bits(y, k) == Bits(y, k);
    } else {
      assert (x + y)[0] == x[0] && (x + y)[1..] == x[1..] + y;
      BitsConcat(x[1..], y, k);
      ConcatAssociates(BitsOf(x[0], k), Bits(x[1..], k), Bits(y, k));
    }
  }

  lemma BitsOfOne(d: nat, k: nat)
    ensures Bits([d], k) == BitsOf(d, k)
  {
    FirstBits(d, [], k);
    assert [d] + [] == [d];
  }

  lemma BitsOfTwo(d: nat, e: nat, k: nat)
    ensures Bits([d, e], k) == BitsOf(d, k) + BitsOf(e, k)
  {
    FirstBits(d, [e], k);
    BitsOfOne(e, k);
    assert [d] + [e] == [d, e];
  }

  /** The first two values: one octet, and the high half of the next. */
  lemma FirstTwo(a: byte, y: byte)
    ensures Bits([a / 4, a % 4 * 16 + y / 16], 6) == BitsOf(a, 8) + BitsOf(y / 16, 4)
  {
    var v := a % 4 * 16 + y / 16;
    BitsOfTwo(a / 4, v, 6);
    SplitTwo(a, 6);
    Split(v, 16, a % 4, y / 16);
    SplitFour(v, 2);
    ConcatAssociates(BitsOf(a / 4, 6), BitsOf(a % 4, 2), BitsOf(y / 16, 4));
  }

  /** The third: the rest of that octet, and the high bits of the third. */
  lemma ThirdOf(y: byte, z: byte)
    ensures BitsOf(y / 16, 4) + BitsOf(y % 16 * 4 + z / 64, 6) == BitsOf(y, 8) + BitsOf(z / 64, 2)
  {
    var v := y % 16 * 4 + z / 64;
    SplitFour(y, 4);
    Split(v, 4, y % 16, z / 64);
    SplitTwo(v, 4);
    ConcatAssociates(BitsOf(y / 16, 4), BitsOf(y % 16, 4), BitsOf(z / 64, 2));
  }

  /** The bits of the octets, and no bit set behind them. */
  ghost predicate Carries(x: seq<sextet>, data: seq<byte>) {
    && |x| == (8 * |data| + 5) / 6
    && Bits(data, 8) <= Bits(x, 6)
    && forall i :: 8 * |data| <= i < |Bits(x, 6)| ==> !Bits(x, 6)[i]
  }

  lemma ZeroBits(k: nat)
    ensures forall i :: 0 <= i < k ==> !BitsOf(0, k)[i]
  {
    if k > 0 {
      ZeroBits(k - 1);
    }
  }

  /** What Group writes of one octet alone. */
  lemma OneOctet(a: byte)
    ensures Carries([a / 4, a % 4 * 16], [a])
  {
    FirstTwo(a, 0);
    assert a % 4 * 16 + 0 / 16 == a % 4 * 16;
    BitsOfOne(a, 8);
    ZeroBits(4);
  }

  lemma TwoOctets(a: byte, b: byte)
    ensures Carries([a / 4, a % 4 * 16 + b / 16, b % 16 * 4], [a, b])
  {
    var first := [a / 4, a % 4 * 16 + b / 16];
    FirstTwo(a, b);
    ThirdOf(b, 0);
    assert b % 16 * 4 + 0 / 64 == b % 16 * 4;
    assert first + [b % 16 * 4] == [a / 4, a % 4 * 16 + b / 16, b % 16 * 4];
    BitsConcat(first, [b % 16 * 4], 6);
    BitsOfOne(b % 16 * 4, 6);
    BitsOfTwo(a, b, 8);
    ConcatAssociates(BitsOf(a, 8), BitsOf(b / 16, 4), BitsOf(b % 16 * 4, 6));
    ConcatAssociates(BitsOf(a, 8), BitsOf(b, 8), BitsOf(0, 2));
    ZeroBits(2);
  }

  function Four(a: byte, b: byte, c: byte): seq<sextet> {
    [a / 4, a % 4 * 16 + b / 16, b % 16 * 4 + c / 64, c % 64]
  }

  /** Three octets are four values, bit for bit. */
  lemma ThreeOctets(a: byte, b: byte, c: byte)
    ensures Bits(Four(a, b, c), 6) == Bits([a, b, c], 8)
  {
    FourBits(a / 4, a % 4 * 16 + b / 16, b % 16 * 4 + c / 64, c % 64, 6);
    FirstTwo(a, b);
    BitsOfTwo(a / 4, a % 4 * 16 + b / 16, 6);
    ThirdOf(b, c);
    SplitSix(c, 2);
    FirstBits(a, [b, c], 8);
    assert [a] + [b, c] == [a, b, c];
    BitsOfTwo(b, c, 8);
    Regroup(BitsOf(a, 8), BitsOf(b / 16, 4), BitsOf(b % 16 * 4 + c / 64, 6), BitsOf(c % 64, 6));
    Regroup(BitsOf(a, 8), BitsOf(b, 8), BitsOf(c / 64, 2), BitsOf(c % 64, 6));
  }

  lemma FourBits(p: nat, q: nat, r: nat, s: nat, k: nat)
    ensures Bits([p, q, r, s], k) == (BitsOf(p, k) + BitsOf(q, k)) + (BitsOf(r, k) + BitsOf(s, k))
  {
    assert [p, q] + [r, s] == [p, q, r, s];
    BitsConcat([p, q], [r, s], k);
    BitsOfTwo(p, q, k);
    BitsOfTwo(r, s, k);
  }

  lemma Regroup(p: seq<bool>, q: seq<bool>, r: seq<bool>, s: seq<bool>)
    ensures (p + q) + (r + s) == p + ((q + r) + s)
    ensures p + (q + (r + s)) == p + ((q + r) + s)
  {
  }

  /** Four values in front carry three octets in front. */
  lemma CarriesMore(a: byte, b: byte, c: byte, x: seq<sextet>, data: seq<byte>)
    requires Carries(x, data)
    ensures Carries(Four(a, b, c) + x, [a, b, c] + data)
  {
    ThreeOctets(a, b, c);
    BitsConcat(Four(a, b, c), x, 6);
    BitsConcat([a, b, c], data, 8);
    assert (8 * (3 + |data|) + 5) / 6 == 4 + (8 * |data| + 5) / 6;
  }

  lemma CarriesNothing()
    ensures Carries([], [])
  {
  }

  lemma WrittenFour(a: byte, b: byte, c: byte, x: seq<sextet>)
    ensures Written(Four(a, b, c) + x) == Group(a, Some(b), Some(c)) + Written(x)
  {
    var y := Four(a, b, c) + x;
    forall i | 0 <= i < |y| ensures Written(y)[i] == (Group(a, Some(b), Some(c)) + Written(x))[i] {
      if i >= 4 {
        assert y[i] == x[i - 4];
      }
    }
  }

  /** data is written as the letters of x and this padding. */
  ghost predicate WritesAs(s: string, data: seq<byte>, x: seq<sextet>, pad: string) {
    Carries(x, data) && s == Written(x) + pad && (pad == "" || pad == "=" || pad == "==")
  }

  lemma GroupText(data: seq<byte>, x: seq<sextet>, pad: string)
    requires |data| >= 3 && Encoded(data[3..]) == Written(x) + pad
    ensures Encoded(data) == Written(Four(data[0], data[1], data[2]) + x) + pad
  {
    WrittenFour(data[0], data[1], data[2], x);
    ConcatAssociates(Group(data[0], Some(data[1]), Some(data[2])), Written(x), pad);
  }

  lemma CarriesInFront(data: seq<byte>, x: seq<sextet>)
    requires |data| >= 3 && Carries(x, data[3..])
    ensures Carries(Four(data[0], data[1], data[2]) + x, data)
  {
    CarriesMore(data[0], data[1], data[2], x, data[3..]);
    assert data == [data[0], data[1], data[2]] + data[3..];
  }

  lemma GroupOfOne(a: byte)
    ensures Encoded([a]) == Written([a / 4, a % 4 * 16]) + "=="
  {
  }

  lemma GroupOfTwo(a: byte, b: byte)
    ensures Encoded([a, b]) == Written([a / 4, a % 4 * 16 + b / 16, b % 16 * 4]) + "="
  {
  }

  lemma LastGroup(data: seq<byte>) returns (x: seq<sextet>, pad: string)
    requires 1 <= |data| < 3
    ensures WritesAs(Encoded(data), data, x, pad)
  {
    if |data| == 1 {
      assert data == [data[0]];
      OneOctet(data[0]);
      GroupOfOne(data[0]);
      x, pad := [data[0] / 4, data[0] % 4 * 16], "==";
    } else {
      assert data == [data[0], data[1]];
      TwoOctets(data[0], data[1]);
      GroupOfTwo(data[0], data[1]);
      x, pad := [data[0] / 4, data[0] % 4 * 16 + data[1] / 16, data[1] % 16 * 4], "=";
    }
  }

  /** The values encoding data writes, and its padding. */
  lemma {:induction false} EncodedIs(data: seq<byte>) returns (x: seq<sextet>, pad: string)
    ensures WritesAs(Encoded(data), data, x, pad)
    decreases |data|
  {
    if data == [] {
      CarriesNothing();
      x, pad := [], "";
    } else if |data| < 3 {
      x, pad := LastGroup(data);
    } else {
      x, pad := EncodedIs(data[3..]);
      GroupText(data, x, pad);
      CarriesInFront(data, x);
      x := Four(data[0], data[1], data[2]) + x;
    }
  }

  /** Letters of the alphabet, then nothing but padding. */
  ghost predicate IsPadded(s: string, x: seq<sextet>) {
    && |x| <= |s|
    && (forall i :: 0 <= i < |x| ==> s[i] == ALPHABET[x[i]])
    && (forall i :: |x| <= i < |s| ==> s[i] == '=')
  }

  lemma WrittenIsPadded(s: string, x: seq<sextet>, pad: string)
    requires s == Written(x) + pad && (pad == "" || pad == "=" || pad == "==")
    ensures IsPadded(s, x)
  {
    forall i | 0 <= i < |x| ensures s[i] == ALPHABET[x[i]] {
      LetterIs(x[i]);
    }
  }

  /** Encoding: the bits of the octets, six to a letter and the last letter filled up with zeros,
      then '=' up to a multiple of four. */
  lemma EncodedMeans(data: seq<byte>)
    ensures Carries(Sextets(Encoded(data)), data)
    ensures IsPadded(Encoded(data), Sextets(Encoded(data))) && |Encoded(data)| == (|data| + 2) / 3 * 4
  {
    var x, pad := EncodedIs(data);
    SextetsWritten(x, pad);
    EncodedShape(data);
    WrittenIsPadded(Encoded(data), x, pad);
  }
}
