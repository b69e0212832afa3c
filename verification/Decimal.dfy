/** Decimal printing, and the standard library's reading of unsigned decimals that the
    JSON extractors (strtoull) and the message bridge (stoull) rely on. */
module Decimal {
  import opened Bytes
  import opened Division
  import opened Sequences

  const ULL: nat := 0x1_0000_0000_0000_0000

  function Digit(d: nat): char
    requires d < 10
  {
    '0' + d as char
  }

  predicate IsDigit(c: char) { '0' <= c <= '9' }

  /** std::to_string and operator<< of an unsigned number. */
  function Printed(n: nat): (s: string)
    ensures s != "" && IsDigit(s[0])
  {
    if n < 10 then [Digit(n)] else Printed(n / 10) + [Digit(n % 10)]
  }

  predicate AllDigits(s: string) { forall i :: 0 <= i < |s| ==> IsDigit(s[i]) }

  lemma {:induction false} PrintedDigits(n: nat)
    ensures AllDigits(Printed(n))
  {
    if n >= 10 {
      PrintedDigits(n / 10);
    }
  }

  /** isspace in the C locale. */
  predicate IsSpace(c: char) { c == ' ' || '\t' <= c <= '\r' }

  function SkipSpaces(s: string): (t: string)
    ensures |t| <= |s|
  {
    if s != "" && IsSpace(s[0]) then SkipSpaces(s[1..]) else s
  }

  /** How many digits s begins with. */
  function Leading(s: string): (k: nat)
    ensures k <= |s|
  {
    if s != "" && IsDigit(s[0]) then 1 + Leading(s[1..]) else 0
  }

  function DigitValue(c: char): nat { if IsDigit(c) then c as int - '0' as int else 0 }

  /** The number a digit string stands for. */
  function Number(s: string): nat {
    if s == "" then 0 else Number(s[..|s| - 1]) * 10 + DigitValue(s[|s| - 1])
  }

  /** What strtoull reads: the value, whether the digits were out of range, and the text after. */
  datatype Reading = Reading(value: nat, overflow: bool, rest: string)

  /** The digits text begins with, if any. A minus sign before them negates modulo 2^64; an
      out-of-range number reads as 2^64 - 1. */
  function ReadDigits(text: string, negative: bool): (r: Option<Reading>)
    ensures r.Some? ==> r.value.value < ULL && |r.value.rest| < |text|
  {
    var k := Leading(text);
    if k == 0 then None
    else
      var n := Number(text[..k]);
      if n >= ULL then Some(Reading(ULL - 1, true, text[k..]))
      else Some(Reading(if negative then (ULL - n) % ULL else n, false, text[k..]))
  }

  predicate IsSigned(t: string) { t != "" && (t[0] == '+' || t[0] == '-') }

  /** Spaces, at most one sign, digits; none if there are no digits. */
  function Strtoull(s: string): (r: Option<Reading>)
    ensures r.Some? ==> r.value.value < ULL && |r.value.rest| < |s|
  {
    var t := SkipSpaces(s);
    if IsSigned(t) then ReadDigits(t[1..], t[0] == '-') else ReadDigits(t, false)
  }

  /** t is the end of s. */
  predicate Ends(t: string, s: string) { |t| <= |s| && t == s[|s| - |t|..] }

  lemma EndsOnwards(t: string, u: string, s: string)
    requires Ends(t, u) && Ends(u, s)
    ensures Ends(t, s)
  {
  }

  lemma DropEnds(s: string, k: nat)
    requires k <= |s|
    ensures Ends(s[k..], s)
  {
  }

  lemma {:induction false} SpacesAreSkipped(s: string)
    ensures Ends(SkipSpaces(s), s)
  {
    if s != "" && IsSpace(s[0]) {
      SpacesAreSkipped(s[1..]);
      DropEnds(s, 1);
      EndsOnwards(SkipSpaces(s), s[1..], s);
    }
  }

  lemma DigitsLeaveEnd(text: string, negative: bool)
    requires ReadDigits(text, negative).Some?
    ensures Ends(ReadDigits(text, negative).value.rest, text)
  {
    DropEnds(text, Leading(text));
  }

  /** What follows the number is the end of the text. */
  lemma ReadingLeavesEnd(s: string)
    requires Strtoull(s).Some?
    ensures Ends(Strtoull(s).value.rest, s)
  {
    var t, rest := SkipSpaces(s), Strtoull(s).value.rest;
    SpacesAreSkipped(s);
    if IsSigned(t) {
      DigitsLeaveEnd(t[1..], t[0] == '-');
      DropEnds(t, 1);
      EndsOnwards(rest, t[1..], t);
    } else {
      DigitsLeaveEnd(t, false);
    }
    EndsOnwards(rest, t, s);
  }

  /** std::stoull: None where it throws. */
  function Stoull(s: string): (v: Option<nat>)
    ensures v.Some? ==> v.value < ULL
  {
    var r := Strtoull(s);
    if r.None? || r.value.overflow then None else Some(r.value.value)
  }

  // ---------------------------------------------------------------- round trip

  lemma {:induction false} NumberPrinted(n: nat)
    ensures Number(Printed(n)) == n
  {
    if n >= 10 {
      NumberPrinted(n / 10);
      assert Printed(n)[..|Printed(n)| - 1] == Printed(n / 10);
    }
  }

  lemma {:induction false} LeadingExactly(digits: string, rest: string)
    requires AllDigits(digits)
    requires rest == "" || !IsDigit(rest[0])
    ensures Leading(digits + rest) == |digits|
  {
    if digits == "" {
      assert digits + rest == rest;
    } else {
      assert (digits + rest)[1..] == digits[1..] + rest;
      LeadingExactly(digits[1..], rest);
    }
  }

  lemma DigitsRead(n: nat, rest: string, negative: bool)
    requires n < ULL && (rest == "" || !IsDigit(rest[0]))
    ensures ReadDigits(Printed(n) + rest, negative)
         == Some(Reading(if negative then (ULL - n) % ULL else n, false, rest))
  {
    var s := Printed(n) + rest;
    PrintedDigits(n);
    LeadingExactly(Printed(n), rest);
    assert s[..|Printed(n)|] == Printed(n) && s[|Printed(n)|..] == rest;
    NumberPrinted(n);
  }

  /** A printed number reads back as itself, up to whatever follows it. */
  lemma PrintedReads(n: nat, rest: string)
    requires n < ULL && (rest == "" || !IsDigit(rest[0]))
    ensures Strtoull(Printed(n) + rest) == Some(Reading(n, false, rest))
  {
    DigitsRead(n, rest, false);
    assert (Printed(n) + rest)[0] == Printed(n)[0];
  }

  lemma MinusRead(text: string)
    ensures Strtoull("-" + text) == ReadDigits(text, true)
  {
    var s := "-" + text;
    assert s[0] == '-' && s[1..] == text;
    assert SkipSpaces(s) == s;
  }

  /** A negative number reads as its value modulo 2^64. */
  lemma NegatedReads(n: nat, rest: string)
    requires 0 < n < ULL && (rest == "" || !IsDigit(rest[0]))
    ensures Strtoull("-" + Printed(n) + rest) == Some(Reading(ULL - n, false, rest))
  {
    DigitsRead(n, rest, true);
    SmallModulus(ULL - n, ULL);
    MinusRead(Printed(n) + rest);
    ConcatAssociates("-", Printed(n), rest);
  }

  lemma PrintedStoull(n: nat)
    requires n < ULL
    ensures Stoull(Printed(n)) == Some(n)
  {
    PrintedReads(n, "");
    assert Printed(n) + "" == Printed(n);
  }

  /** A text that does not begin like a number reads as none. */
  lemma NoNumber(s: string)
    requires s == "" || (!IsSpace(s[0]) && !IsDigit(s[0]) && s[0] != '+' && s[0] != '-')
    ensures Strtoull(s) == None
  {
  }

  // ---------------------------------------------------------------- what is read and printed

  function Pow10(k: nat): (p: nat)
    ensures p > 0
  {
    if k == 0 then 1 else 10 * Pow10(k - 1)
  }

  lemma TenthThenDivide(q: nat, d: nat, m: nat)
    requires d < 10 && m > 0
    ensures (q * 10 + d) / (10 * m) == q / m
  {
    assert q == q / m * m + q % m;
    Split(q * 10 + d, 10 * m, q / m, q % m * 10 + d);
  }

  /** The k-th digit from the end counts the powers of ten. */
  lemma {:induction false} NumberDigit(s: string, k: nat)
    requires AllDigits(s) && k < |s|
    ensures Number(s) / Pow10(k) % 10 == s[|s| - 1 - k] as int - '0' as int
    decreases k
  {
    var init, d := s[..|s| - 1], DigitValue(s[|s| - 1]);
    if k > 0 {
      NumberDigit(init, k - 1);
      TenthThenDivide(Number(init), d, Pow10(k - 1));
    }
  }

  lemma {:induction false} NumberBelow(s: string)
    requires AllDigits(s)
    ensures Number(s) < Pow10(|s|)
  {
    if s != "" {
      NumberBelow(s[..|s| - 1]);
    }
  }

  lemma {:induction false} NoLeadingZero(n: nat)
    ensures Printed(n)[0] == '0' <==> n == 0
    ensures n == 0 ==> Printed(n) == "0"
  {
    if n >= 10 {
      NoLeadingZero(n / 10);
    }
  }

  /** A number is printed in decimal: digits alone, each in its place, none a leading zero. */
  lemma PrintedIsDecimal(n: nat)
    ensures forall k :: 0 <= k < |Printed(n)| ==>
      Printed(n)[|Printed(n)| - 1 - k] as int == '0' as int + n / Pow10(k) % 10
    ensures n < Pow10(|Printed(n)|)
    ensures Printed(n)[0] == '0' <==> n == 0
    ensures n == 0 ==> Printed(n) == "0"
  {
    PrintedDigits(n);
    NumberPrinted(n);
    NumberBelow(Printed(n));
    NoLeadingZero(n);
    forall k | 0 <= k < |Printed(n)|
      ensures Printed(n)[|Printed(n)| - 1 - k] as int == '0' as int + n / Pow10(k) % 10
    {
      NumberDigit(Printed(n), k);
    }
  }

  /** Space, tab, line feed, vertical tab, form feed, carriage return. */
  predicate IsBlank(c: char) { c as int in {32, 9, 10, 11, 12, 13} }

  lemma {:induction false} SpacesSkipped(w: string, s: string)
    requires (forall c :: c in w ==> IsBlank(c)) && (s == "" || !IsBlank(s[0]))
    ensures SkipSpaces(w + s) == s
  {
    if w == "" {
      assert w + s == s;
    } else {
      assert w[0] in w && (w + s)[1..] == w[1..] + s;
      SpacesSkipped(w[1..], s);
    }
  }

  /** What the digits give, and what is left of the text. */
  function Taken(digits: string, negative: bool, rest: string): Option<Reading> {
    var n := Number(digits);
    if digits == "" then None
    else if n >= 0x1_0000_0000_0000_0000 then Some(Reading(0xFFFF_FFFF_FFFF_FFFF, true, rest))
    else if negative then Some(Reading((0x1_0000_0000_0000_0000 - n) % 0x1_0000_0000_0000_0000, false, rest))
    else Some(Reading(n, false, rest))
  }

  lemma DigitsMean(digits: string, negative: bool, rest: string)
    requires AllDigits(digits) && (rest == "" || !IsDigit(rest[0]))
    ensures ReadDigits(digits + rest, negative) == Taken(digits, negative, rest)
  {
    var text := digits + rest;
    LeadingExactly(digits, rest);
    assert text[..|digits|] == digits && text[|digits|..] == rest;
  }

  predicate IsSign(sign: string) { sign == "" || sign == "+" || sign == "-" }

  lemma SignRead(sign: string, text: string)
    requires IsSign(sign) && (sign == "" && text != "" ==> !IsBlank(text[0]) && text[0] != '+' && text[0] != '-')
    ensures SkipSpaces(sign + text) == sign + text
    ensures Strtoull(sign + text) == ReadDigits(text, sign == "-")
  {
    var t := sign + text;
    if sign == "" {
      assert t == text;
    } else {
      assert t[0] == sign[0] && t[1..] == text;
    }
  }

  lemma BlanksRead(blanks: string, t: string)
    requires (forall c :: c in blanks ==> IsBlank(c)) && (t == "" || !IsBlank(t[0]))
    ensures Strtoull(blanks + t) == Strtoull(t)
  {
    SpacesSkipped(blanks, t);
    SpacesSkipped("", t);
    assert "" + t == t;
  }

  /** What strtoull makes of blanks, at most one sign, digits, and whatever follows them. */
  lemma ReadingMeans(blanks: string, sign: string, digits: string, rest: string)
    requires (forall c :: c in blanks ==> IsBlank(c)) && IsSign(sign)
    requires AllDigits(digits) && (rest == "" || !IsDigit(rest[0]))
    requires sign == "" && digits == "" && rest != "" ==> !IsBlank(rest[0]) && rest[0] != '+' && rest[0] != '-'
    ensures Strtoull(blanks + (sign + (digits + rest))) == Taken(digits, sign == "-", rest)
    ensures Stoull(blanks + (sign + (digits + rest)))
      == if digits == "" || Number(digits) > 0xFFFF_FFFF_FFFF_FFFF then None
         else Some(Taken(digits, sign == "-", rest).value.value)
  {
    var text := digits + rest;
    assert text != "" ==> text[0] == if digits != "" then digits[0] else rest[0];
    assert digits != "" ==> IsDigit(digits[0]);
    DigitsMean(digits, sign == "-", rest);
    SignRead(sign, text);
    assert sign != "" ==> (sign + text)[0] == sign[0];
    assert sign == "" ==> sign + text == text;
    BlanksRead(blanks, sign + text);
  }
}
