/** base64 as the relay.Message JSON uses it (cli/json.hpp): section 4 of RFC 4648. */
module Base64 {
  import opened Bytes
  import opened Division
  import opened Sequences

  const PAD: char := '='
  /** The decoder's accumulator is a uint32_t. */
  const WORD: nat := 0x1_0000_0000

  /** A six-bit value. */
  type sextet = x: int | 0 <= x < 64

  function Letter(v: sextet): char {
    if v < 26 then 'A' + v as char
    else if v < 52 then 'a' + (v - 26) as char
    else if v < 62 then '0' + (v - 52) as char
    else if v == 62 then '+' else '/'
  }

  /** -1 outside the alphabet. */
  function Value(c: char): int {
    if 'A' <= c <= 'Z' then c as int - 'A' as int
    else if 'a' <= c <= 'z' then c as int - 'a' as int + 26
    else if '0' <= c <= '9' then c as int - '0' as int + 52
    else if c == '+' then 62
    else if c == '/' then 63
    else -1
  }

  lemma LetterValue(v: sextet)
    ensures Value(Letter(v)) == v && Letter(v) != PAD && Letter(v) != '"'
  {
  }

  // ---------------------------------------------------------------- encoding

  function OrZero(b: Option<byte>): byte { if b.Some? then b.value else 0 }

  /** The four letters of three bytes, or of two or one with padding. */
  function Group(a: byte, b: Option<byte>, c: Option<byte>): string {
    var y: int, z: int := OrZero(b), OrZero(c);
    [Letter(a / 4), Letter(a % 4 * 16 + y / 16),
     if b.Some? then Letter(y % 16 * 4 + z / 64) else PAD,
     if c.Some? then Letter(z % 64) else PAD]
  }

  function At(data: seq<byte>, i: nat): Option<byte> {
    if i < |data| then Some(data[i]) else None
  }

  function Encoded(data: seq<byte>): string {
    if data == [] then ""
    else Group(data[0], At(data, 1), At(data, 2)) + (if |data| <= 3 then "" else Encoded(data[3..]))
  }

  // ---------------------------------------------------------------- decoding

  /** How many bits of the accumulator are still to be given out before a letter. */
  type spare = x: int | x == 0 || x == 2 || x == 4 || x == 6

  /** acc >> bits */
  function Above(acc: nat, bits: spare): nat {
    if bits == 0 then acc else if bits == 2 then acc / 4 else if bits == 4 then acc / 16 else acc / 64
  }

  /** The lowest bits of acc. */
  function Below(acc: nat, bits: spare): nat {
    if bits == 0 then 0 else if bits == 2 then acc % 4 else if bits == 4 then acc % 16 else acc % 64
  }

  function Low8(n: nat): byte { n % 256 }

  function Shifted(accum: nat, v: nat): nat { (accum * 64 + v) % WORD }

  /** The decoder as written: the accumulator only ever shifts left, and wraps. */
  function DecodeFrom(s: string, accum: nat, bits: spare): seq<byte>
    decreases |s|
  {
    if s == "" || s[0] == PAD then []
    else if Value(s[0]) < 0 then DecodeFrom(s[1..], accum, bits)
    else
      var acc := Shifted(accum, Value(s[0]));
      if bits >= 2 then [Low8(Above(acc, bits - 2))] + DecodeFrom(s[1..], acc, bits - 2)
      else DecodeFrom(s[1..], acc, 6)
  }

  function Decoded(s: string): seq<byte> { DecodeFrom(s, 0, 0) }

  /** A decoder that keeps only the bits still to be given out: nothing can wrap. */
  function DecodePending(s: string, pending: nat, bits: spare): seq<byte>
    decreases |s|
  {
    if s == "" || s[0] == PAD then []
    else if Value(s[0]) < 0 then DecodePending(s[1..], pending, bits)
    else
      var acc := pending * 64 + Value(s[0]);
      if bits >= 2 then [Low8(Above(acc, bits - 2))] + DecodePending(s[1..], Below(acc, bits - 2), bits - 2)
      else DecodePending(s[1..], acc, 6)
  }

  /** Shifting drops only bits far above those in hand. */
  lemma WrapIsHigh(accum: nat, v: sextet, high: nat, low: nat, unit: nat)
    requires accum == high * unit + low && unit in {1, 4, 16, 64}
    ensures exists h: int :: Shifted(accum, v) == h * (64 * unit) + (low * 64 + v)
  {
    var lost := (accum * 64 + v) / WORD;
    var h := high - lost * (WORD / (64 * unit));
    assert Shifted(accum, v) == accum * 64 + v - lost * WORD;
    assert WORD / (64 * unit) * (64 * unit) == WORD;
    assert Shifted(accum, v) == h * (64 * unit) + (low * 64 + v);
  }

  /** A step of the wrapping decoder and of the masked one give out the same byte and keep
      the same bits. */
  ghost predicate SameStep(accum: nat, v: sextet, bits: spare) {
    var acc, kept := Shifted(accum, v), Below(accum, bits) * 64 + v;
    if bits >= 2
    then Low8(Above(acc, bits - 2)) == Low8(Above(kept, bits - 2)) && Below(acc, bits - 2) == Below(kept, bits - 2)
    else Below(acc, 6) == kept
  }

  lemma Step0(accum: nat, v: sextet)
    ensures SameStep(accum, v, 0)
  {
    WrapIsHigh(accum, v, accum, 0, 1);
    var h: int :| Shifted(accum, v) == h * 64 + v;
    Split(Shifted(accum, v), 64, h, v);
  }

  lemma Step2(accum: nat, v: sextet)
    ensures SameStep(accum, v, 2)
  {
    WrapIsHigh(accum, v, accum / 4, accum % 4, 4);
    var low := accum % 4 * 64 + v;
    var h: int :| Shifted(accum, v) == h * 256 + low;
    Split(Shifted(accum, v), 256, h, low);
  }

  lemma Step4(accum: nat, v: sextet)
    ensures SameStep(accum, v, 4)
  {
    WrapIsHigh(accum, v, accum / 16, accum % 16, 16);
    var low := accum % 16 * 64 + v;
    var h: int :| Shifted(accum, v) == h * 1024 + low;
    Split(Shifted(accum, v), 4, h * 256 + low / 4, low % 4);
    Split(h * 256 + low / 4, 256, h, low / 4);
  }

  lemma Step6(accum: nat, v: sextet)
    ensures SameStep(accum, v, 6)
  {
    WrapIsHigh(accum, v, accum / 64, accum % 64, 64);
    var low := accum % 64 * 64 + v;
    var h: int :| Shifted(accum, v) == h * 4096 + low;
    Split(Shifted(accum, v), 16, h * 256 + low / 16, low % 16);
    Split(h * 256 + low / 16, 256, h, low / 16);
  }

  lemma WrapOneStep(accum: nat, v: sextet, bits: spare)
    ensures SameStep(accum, v, bits)
  {
    if bits == 0 { Step0(accum, v); }
    else if bits == 2 { Step2(accum, v); }
    else if bits == 4 { Step4(accum, v); }
    else { Step6(accum, v); }
  }

  /** The wrap never shows: the uint32_t accumulator, never masked, decodes like unbounded
      arithmetic on the bits in hand, on every text. */
  lemma {:induction false} WrapNeverShows(s: string, accum: nat, bits: spare)
    ensures DecodeFrom(s, accum, bits) == DecodePending(s, Below(accum, bits), bits)
    decreases |s|
  {
    if s != "" && s[0] != PAD {
      if Value(s[0]) < 0 {
        WrapNeverShows(s[1..], accum, bits);
      } else {
        WrapOneStep(accum, Value(s[0]), bits);
        WrapNeverShows(s[1..], Shifted(accum, Value(s[0])), if bits >= 2 then bits - 2 else 6);
      }
    }
  }

  lemma PendingStep(v: sextet, rest: string, pending: nat, bits: spare)
    ensures var acc := pending * 64 + v;
      DecodePending([Letter(v)] + rest, pending, bits)
        == if bits >= 2 then [Low8(Above(acc, bits - 2))] + DecodePending(rest, Below(acc, bits - 2), bits - 2)
           else DecodePending(rest, acc, 6)
  {
    LetterValue(v);
    assert ([Letter(v)] + rest)[1..] == rest;
  }

  /** The second letter completes a byte and leaves the high half of the next one. */
  lemma SecondLetter(a: byte, y: byte, rest: string)
    ensures DecodePending([Letter(a % 4 * 16 + y / 16)] + rest, a / 4, 6) == [a] + DecodePending(rest, y / 16, 4)
  {
    PendingStep(a % 4 * 16 + y / 16, rest, a / 4, 6);
    Split(a / 4 * 64 + (a % 4 * 16 + y / 16), 16, a, y / 16);
  }

  lemma ThirdLetter(b: byte, z: byte, rest: string)
    ensures DecodePending([Letter(b % 16 * 4 + z / 64)] + rest, b / 16, 4) == [b] + DecodePending(rest, z / 64, 2)
  {
    PendingStep(b % 16 * 4 + z / 64, rest, b / 16, 4);
    Split(b / 16 * 64 + (b % 16 * 4 + z / 64), 4, b, z / 64);
  }

  lemma FourthLetter(c: byte, rest: string)
    ensures DecodePending([Letter(c % 64)] + rest, c / 64, 2) == [c] + DecodePending(rest, 0, 0)
  {
    PendingStep(c % 64, rest, c / 64, 2);
  }

  lemma FirstLetter(a: byte, rest: string)
    ensures DecodePending([Letter(a / 4)] + rest, 0, 0) == DecodePending(rest, a / 4, 6)
  {
    PendingStep(a / 4, rest, 0, 0);
  }

  /** Four letters give back their three bytes and leave nothing pending. */
  lemma WholeGroup(a: byte, b: byte, c: byte, rest: string)
    ensures DecodePending(Group(a, Some(b), Some(c)) + rest, 0, 0) == [a, b, c] + DecodePending(rest, 0, 0)
  {
    var s4 := [Letter(c % 64)] + rest;
    var s3 := [Letter(b % 16 * 4 + c / 64)] + s4;
    var s2 := [Letter(a % 4 * 16 + b / 16)] + s3;
    assert Group(a, Some(b), Some(c)) + rest == [Letter(a / 4)] + s2;
    FirstLetter(a, s2);
    SecondLetter(a, b, s3);
    ThirdLetter(b, c, s4);
    FourthLetter(c, rest);
  }

  lemma PairGroup(a: byte, b: byte)
    ensures DecodePending(Group(a, Some(b), None), 0, 0) == [a, b]
  {
    var s3 := [Letter(b % 16 * 4 + 0 / 64)] + [PAD];
    var s2 := [Letter(a % 4 * 16 + b / 16)] + s3;
    assert Group(a, Some(b), None) == [Letter(a / 4)] + s2;
    FirstLetter(a, s2);
    SecondLetter(a, b, s3);
    ThirdLetter(b, 0, [PAD]);
  }

  lemma SingleGroup(a: byte)
    ensures DecodePending(Group(a, None, None), 0, 0) == [a]
  {
    var s2 := [Letter(a % 4 * 16 + 0 / 16)] + [PAD, PAD];
    assert Group(a, None, None) == [Letter(a / 4)] + s2;
    FirstLetter(a, s2);
    SecondLetter(a, 0, [PAD, PAD]);
  }

  lemma {:induction false} PendingRoundTrip(data: seq<byte>)
    ensures DecodePending(Encoded(data), 0, 0) == data
  {
    if |data| >= 3 {
      WholeGroup(data[0], data[1], data[2], if |data| == 3 then "" else Encoded(data[3..]));
      if |data| > 3 {
        PendingRoundTrip(data[3..]);
      }
    } else if |data| == 2 {
      PairGroup(data[0], data[1]);
      assert Encoded(data) == Group(data[0], Some(data[1]), None);
    } else if |data| == 1 {
      SingleGroup(data[0]);
      assert Encoded(data) == Group(data[0], None, None);
    }
  }

  /** Decoding what was encoded gives the bytes back, for every byte string. */
  lemma RoundTrip(data: seq<byte>)
    ensures Decoded(Encoded(data)) == data
  {
    WrapNeverShows(Encoded(data), 0, 0);
    PendingRoundTrip(data);
  }

  lemma GroupLetters(a: byte, b: Option<byte>, c: Option<byte>)
    ensures '"' !in Group(a, b, c)
  {
    var y: int, z: int := OrZero(b), OrZero(c);
    LetterValue(a / 4);
    LetterValue(a % 4 * 16 + y / 16);
    LetterValue(y % 16 * 4 + z / 64);
    LetterValue(z % 64);
  }

  /** The text has 4 * ceil(n / 3) characters, and none is a double quote. */
  lemma {:induction false} EncodedShape(data: seq<byte>)
    ensures |Encoded(data)| == (|data| + 2) / 3 * 4
    ensures '"' !in Encoded(data)
  {
    if data != [] {
      GroupLetters(data[0], At(data, 1), At(data, 2));
      if |data| > 3 {
        EncodedShape(data[3..]);
        MoreThirds(|data[3..]|);
      } else {
        assert Encoded(data) == Group(data[0], At(data, 1), At(data, 2));
      }
    }
  }

  lemma MoreThirds(n: nat)
    ensures (n + 3 + 2) / 3 == (n + 2) / 3 + 1
  {
  }

  // ---------------------------------------------------------------- the loops

  lemma EncodedSplits(data: seq<byte>, i: nat)
    requires i < |data|
    ensures Encoded(Rest(data, i)) == Group(data[i], At(data, i + 1), At(data, i + 2)) + Encoded(Rest(data, i + 3))
  {
    var d := data[i..];
    if |d| > 3 {
      assert d[3..] == data[i + 3..];
    }
  }

  function Scaled(x: int, unit: int): int { x * unit }

  lemma SixBitFields(x1: nat, x2: nat, y1: nat, y2: nat, z1: nat, z2: nat)
    requires x1 < 64 && x2 < 4 && y1 < 16 && y2 < 16 && z1 < 4 && z2 < 64
    ensures var b := Scaled(x1 * 4 + x2, 65536) + Scaled(y1 * 16 + y2, 256) + (z1 * 64 + z2);
      b / 262144 == x1 && b / 4096 % 64 == x2 * 16 + y1 && b / 64 % 64 == y2 * 4 + z1 && b % 64 == z2
  {
    var b := Scaled(x1 * 4 + x2, 65536) + Scaled(y1 * 16 + y2, 256) + (z1 * 64 + z2);
    Split(b, 262144, x1, x2 * 65536 + y1 * 4096 + y2 * 256 + z1 * 64 + z2);
    Split(b, 4096, x1 * 64 + x2 * 16 + y1, y2 * 256 + z1 * 64 + z2);
    Split(x1 * 64 + x2 * 16 + y1, 64, x1, x2 * 16 + y1);
    Split(b, 64, x1 * 4096 + x2 * 1024 + y1 * 64 + y2 * 4 + z1, z2);
    Split(x1 * 4096 + x2 * 1024 + y1 * 64 + y2 * 4 + z1, 64, x1 * 64 + x2 * 16 + y1, y2 * 4 + z1);
  }

  /** The six-bit fields of the 24-bit word of three bytes. */
  lemma ThreeBytes(x: byte, y: byte, z: byte)
    ensures var b := Scaled(x, 65536) + Scaled(y, 256) + z;
      b / 262144 == x / 4 && b / 4096 % 64 == x % 4 * 16 + y / 16
      && b / 64 % 64 == y % 16 * 4 + z / 64 && b % 64 == z % 64
  {
    SixBitFields(x / 4, x % 4, y / 16, y % 16, z / 64, z % 64);
  }

  /** The letters of the four six-bit fields of a 24-bit word, the last two if they are there. */
  function Letters(b: nat, third: bool, fourth: bool): string
    requires b < 0x100_0000
  {
    [Letter(b / 262144), Letter(b / 4096 % 64),
     if third then Letter(b / 64 % 64) else PAD, if fourth then Letter(b % 64) else PAD]
  }

  lemma LettersOfGroup(a: byte, b: Option<byte>, c: Option<byte>)
    ensures var w := Scaled(a, 65536) + Scaled(OrZero(b), 256) + OrZero(c);
      0 <= w < 0x100_0000 && Letters(w, b.Some?, c.Some?) == Group(a, b, c)
  {
    ThreeBytes(a, OrZero(b), OrZero(c));
  }

  /** One turn of the encoder: up to three bytes into a word, four letters out of it. */
  method EncodeGroup(data: seq<byte>, i: nat) returns (four: string)
    requires i < |data|
    ensures four == Group(data[i], At(data, i + 1), At(data, i + 2))
  {
    var b: int := Scaled(data[i], 65536);
    if i + 1 < |data| { b := b + Scaled(data[i + 1], 256); }
    if i + 2 < |data| { b := b + data[i + 2]; }
    LettersOfGroup(data[i], At(data, i + 1), At(data, i + 2));
    four := Letters(b, i + 1 < |data|, i + 2 < |data|);
  }

  function Rest(data: seq<byte>, i: nat): seq<byte> {
    if i <= |data| then data[i..] else []
  }

  lemma EncodedNext(data: seq<byte>, i: nat, out: string, four: string)
    requires i < |data| && four == Group(data[i], At(data, i + 1), At(data, i + 2))
    ensures (out + four) + Encoded(Rest(data, i + 3)) == out + Encoded(Rest(data, i))
  {
    EncodedSplits(data, i);
    ConcatAssociates(out, four, Encoded(Rest(data, i + 3)));
  }

  lemma NothingYet(data: seq<byte>)
    ensures "" + Encoded(Rest(data, 0)) == Encoded(data)
  {
    assert Rest(data, 0) == data;
  }

  lemma NothingLeft(data: seq<byte>, i: nat)
    requires i >= |data|
    ensures Encoded(Rest(data, i)) == ""
  {
  }

  method Encode(data: seq<byte>) returns (out: string)
    ensures out == Encoded(data)
  {
    out := "";
    var i := 0;
    NothingYet(data);
    while i < |data|
      invariant 0 <= i && out + Encoded(Rest(data, i)) == Encoded(data)
      decreases |data| - i
    {
      var four := EncodeGroup(data, i);
      EncodedNext(data, i, out, four);
      out := out + four;
      i := i + 3;
    }
    NothingLeft(data, i);
  }

  method Decode(s: string) returns (out: seq<byte>)
    ensures out == Decoded(s)
  {
    out := [];
    var accum, bits: spare := 0, 0;
    var i := 0;
    while i < |s|
      invariant i <= |s|
      invariant accum >= 0
      invariant out + DecodeFrom(s[i..], accum, bits) == Decoded(s)
    {
      var c := s[i];
      assert s[i..][1..] == s[i + 1..];
      i := i + 1;
      if c == PAD {
        break;
      }
      var v := Value(c);
      if v < 0 {
        continue;
      }
      accum := Shifted(accum, v);
      if bits >= 2 {
        bits := bits - 2;
        out := out + [Low8(Above(accum, bits))];
      } else {
        bits := 6;
      }
    }
  }
}
