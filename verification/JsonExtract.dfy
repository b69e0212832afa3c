/** The field extractors of cli/json.hpp: cursor loops over the text, and what each of them
    reads as a function of the text at the value. */
module JsonExtract {
  import opened Bytes
  import opened Decimal
  import opened JsonText
  import opened Sequences
  import Base64

  // ---------------------------------------------------------------- what is read

  const MAX_U32: nat := 0xFFFF_FFFF

  /** A value out of range reads as the largest uint64_t. */
  function U64After(t: string): (v: Option<nat>)
    ensures v.Some? ==> v.value < ULL
  {
    match Strtoull(t)
    case None => None
    case Some(r) => Some(r.value)
  }

  function U32After(t: string): (v: Option<nat>)
    ensures v.Some? ==> v.value <= MAX_U32
  {
    match U64After(t)
    case None => None
    case Some(v) => if v > MAX_U32 then None else Some(v)
  }

  /** A quoted string at the very start of t, and the text after it. */
  function Quoted(t: string): (r: Option<(string, string)>)
    ensures r.Some? ==> |r.value.1| < |t|
  {
    if t == "" || t[0] != QUOTE then None else UpToQuote(t[1..])
  }

  function StringAfter(t: string): Option<string> {
    match Quoted(t)
    case None => None
    case Some((text, _)) => Some(text)
  }

  function SkipComma(s: string): (t: string)
    ensures |t| <= |s|
  {
    var u := SkipBlanks(s);
    if u != "" && u[0] == ',' then u[1..] else u
  }

  /** One number below 256 of an array and the comma after it. */
  function ElementOf(t: string): (e: Option<(byte, string)>)
    ensures e.Some? ==> |e.value.1| < |t|
  {
    var u := SkipWhite(t);
    if u == "" || u[0] == ']' then None
    else
      var r := Strtoull(u);
      if r.None? || r.value.value > 255 then None else Some((r.value.value, SkipComma(r.value.rest)))
  }

  /** The numbers of a JSON array up to the first that is no byte. */
  function ByteList(t: string): seq<byte>
    decreases |t|
  {
    match ElementOf(t)
    case None => []
    case Some((b, rest)) => [b] + ByteList(rest)
  }

  function BytesAfter(t: string): Option<seq<byte>> {
    if t == "" then None
    else if t[0] == QUOTE then
      match UpToQuote(t[1..])
      case None => None
      case Some((text, _)) => Some(Base64.Decoded(text))
    else if t[0] == '[' then Some(ByteList(t[1..]))
    else None
  }

  datatype Entry = Entry(key: string, value: string, rest: string)

  /** The text after a colon, past blanks on either side. */
  function PastColon(t: string): (r: Option<string>)
    ensures r.Some? ==> |r.value| <= |t|
  {
    var u := SkipBlanks(t);
    if u == "" || u[0] != ':' then None else Some(SkipBlanks(u[1..]))
  }

  /** One "key":"value" of an object and the comma after it. */
  function EntryOf(t: string): (e: Option<Entry>)
    ensures e.Some? ==> |e.value.rest| < |t|
  {
    match Quoted(SkipWhite(t))
    case None => None
    case Some((key, v)) =>
      match PastColon(v)
      case None => None
      case Some(x) =>
        match Quoted(x)
        case None => None
        case Some((value, y)) => Some(Entry(key, value, SkipComma(y)))
  }

  /** The entries up to the first thing that is none; a later value of a key wins. */
  function EntriesFrom(t: string, out: map<string, string>): map<string, string>
    decreases |t|
  {
    match EntryOf(t)
    case None => out
    case Some(e) => EntriesFrom(e.rest, out[e.key := e.value])
  }

  function MapAfter(t: string): Option<map<string, string>> {
    if t == "" || t[0] != '{' then None else Some(EntriesFrom(t[1..], map[]))
  }

  /** The text at the value of a key, past blanks. */
  function Found(s: string, key: string): Option<string> {
    match AfterKey(s, key)
    case None => None
    case Some(t) => Some(SkipBlanks(t))
  }

  function U32Field(s: string, key: string): (v: Option<nat>)
    ensures v.Some? ==> v.value <= MAX_U32
  {
    match Found(s, key)
    case None => None
    case Some(t) => U32After(t)
  }

  function U64Field(s: string, key: string): (v: Option<nat>)
    ensures v.Some? ==> v.value < ULL
  {
    match Found(s, key)
    case None => None
    case Some(t) => U64After(t)
  }

  function StringField(s: string, key: string): Option<string> {
    match Found(s, key)
    case None => None
    case Some(t) => StringAfter(t)
  }

  function BytesField(s: string, key: string): Option<seq<byte>> {
    match Found(s, key)
    case None => None
    case Some(t) => BytesAfter(t)
  }

  function MapField(s: string, key: string): Option<map<string, string>> {
    match Found(s, key)
    case None => None
    case Some(t) => MapAfter(t)
  }

  // ---------------------------------------------------------------- what that means

  ghost predicate AllBlank(u: string) { forall c :: c in u ==> c == ' ' || c == '\t' }

  ghost predicate AllWhite(u: string) { forall c :: c in u ==> c == ' ' || c == '\t' || c == '\n' || c == '\r' }

  predicate IsBare(s: string) { s == "" || (s[0] != ' ' && s[0] != '\t' && s[0] != '\n' && s[0] != '\r') }

  /** A printed number reads as itself if it has 32 bits, and as none if it does not; past 64
      bits it reads as the largest uint64_t. */
  lemma NumberLimits(n: nat, rest: string)
    requires rest == "" || !IsDigit(rest[0])
    ensures U32After(Printed(n) + rest) == if n <= 0xFFFF_FFFF then Some(n) else None
    ensures U64After(Printed(n) + rest) == if n <= 0xFFFF_FFFF_FFFF_FFFF then Some(n) else Some(0xFFFF_FFFF_FFFF_FFFF)
  {
    PrintedDigits(n);
    NumberPrinted(n);
    ReadingMeans("", "", Printed(n), rest);
    assert "" + ("" + (Printed(n) + rest)) == Printed(n) + rest;
  }

  /** After a comma, with or without blanks ahead of it, the text goes on behind it; without
      one, behind the blanks. */
  lemma CommaSkipped(u: string, s: string)
    requires AllBlank(u) && IsBare(s)
    ensures SkipComma(u + ("," + s)) == s
    ensures s == "" || s[0] != ',' ==> SkipComma(u + s) == s
  {
    BlanksSkipped(u, "," + s);
    BlanksSkipped(u, s);
    assert ("," + s)[1..] == s;
  }

  lemma BlankStart(u: string, s: string)
    requires AllBlank(u) && s != "" && !IsDigit(s[0])
    ensures !IsDigit((u + s)[0])
  {
    if u != "" {
      assert u[0] in u;
    } else {
      assert u + s == s;
    }
  }

  /** An element of an array, whatever white space is around it. */
  lemma ElementReads(w: string, b: nat, u: string, rest: string)
    requires AllWhite(w) && AllBlank(u) && IsBare(rest)
    ensures ElementOf(w + (Printed(b) + (u + ("," + rest)))) == if b < 256 then Some((b, rest)) else None
    ensures ElementOf(w + (Printed(b) + (u + ("]" + rest)))) == if b < 256 then Some((b, "]" + rest)) else None
  {
    BlankStart(u, "," + rest);
    BlankStart(u, "]" + rest);
    ElementRead(w, b, u + ("," + rest));
    ElementRead(w, b, u + ("]" + rest));
    CommaSkipped(u, rest);
    CommaSkipped(u, "]" + rest);
  }

  lemma ElementRead(w: string, b: nat, rest: string)
    requires AllWhite(w) && (rest == "" || !IsDigit(rest[0]))
    ensures ElementOf(w + (Printed(b) + rest)) == if b < 256 then Some((b, SkipComma(rest))) else None
  {
    var t := Printed(b) + rest;
    assert t[0] == Printed(b)[0];
    WhiteSkipped(w, t);
    NumberLimits(b, rest);
    if b < 0x100 {
      PrintedReads(b, rest);
    }
  }

  /** The closing bracket ends the array. */
  lemma ArrayEnds(w: string, rest: string)
    requires AllWhite(w)
    ensures ElementOf(w + ("]" + rest)) == None && ElementOf(w) == None
  {
    WhiteSkipped(w, "]" + rest);
    WhiteSkipped(w, "");
    assert w + "" == w;
  }

  /** The elements, commas between them, and the closing bracket. */
  function ArrayText(data: seq<byte>): string {
    if data == [] then "]" else Printed(data[0]) + (if |data| == 1 then "]" else "," + ArrayText(data[1..]))
  }

  /** A printed array of octets reads as those octets. */
  lemma {:induction false} ArrayReads(data: seq<byte>)
    ensures ByteList(ArrayText(data)) == data
    ensures IsBare(ArrayText(data)) && ArrayText(data)[0] != ','
  {
    if data == [] {
      ArrayEnds("", "");
      assert "" + ("]" + "") == "]";
    } else {
      var rest := if |data| == 1 then "]" else "," + ArrayText(data[1..]);
      ArrayReads(data[1..]);
      ElementRead("", data[0], rest);
      assert "" + (Printed(data[0]) + rest) == Printed(data[0]) + rest;
      CommaSkipped("", if |data| == 1 then "]" else ArrayText(data[1..]));
      assert "" + rest == rest;
      assert data == [data[0]] + data[1..];
    }
  }

  /** After a key, the array form of a byte string, and the quoted one. */
  lemma BytesForms(data: seq<byte>, rest: string)
    ensures BytesAfter("[" + ArrayText(data)) == Some(data)
    ensures BytesAfter(QuotedText(Base64.Encoded(data), rest)) == Some(data)
  {
    var t := "[" + ArrayText(data);
    ArrayReads(data);
    assert t[0] == '[' && t[1..] == ArrayText(data);
    Base64.EncodedShape(data);
    Base64.RoundTrip(data);
    QuotedReads(Base64.Encoded(data), rest);
  }

  function QuotedText(text: string, rest: string): string { "\"" + (text + ("\"" + rest)) }

  /** An entry of an object, whatever white space is around its parts. */
  lemma EntryReadsLoosely(w: string, key: string, u: string, v: string, value: string, x: string, rest: string)
    requires AllWhite(w) && AllBlank(u) && AllBlank(v) && AllBlank(x) && IsBare(rest)
    requires Quoteless(key) && Quoteless(value)
    ensures EntryOf(w + QuotedText(key, u + (":" + (v + QuotedText(value, x + ("," + rest))))))
      == Some(Entry(key, value, rest))
  {
    var y := x + ("," + rest);
    var s := QuotedText(value, y);
    var t := u + (":" + (v + s));
    WhiteSkipped(w, QuotedText(key, t));
    QuotedReads(key, t);
    BlanksSkipped(u, ":" + (v + s));
    assert (":" + (v + s))[1..] == v + s;
    BlanksSkipped(v, s);
    QuotedReads(value, y);
    CommaSkipped(x, rest);
  }

  lemma QuotedReads(text: string, rest: string)
    requires Quoteless(text)
    ensures Quoted(QuotedText(text, rest)) == Some((text, rest))
  {
    var s := QuotedText(text, rest);
    assert s[0] == QUOTE && s[1..] == text + ([QUOTE] + rest);
    UpToQuoteEnds(text, rest);
  }

  // ---------------------------------------------------------------- the cursor loops

  lemma Suffix(s: string, p: nat)
    requires p < |s|
    ensures s[p..] != "" && s[p..][0] == s[p] && s[p..][1..] == s[p + 1..]
  {
  }

  method Blanks(s: string, start: nat) returns (p: nat)
    requires start <= |s|
    ensures start <= p <= |s| && s[p..] == SkipBlanks(s[start..])
  {
    p := start;
    while p < |s| && (s[p] == ' ' || s[p] == '\t')
      invariant start <= p <= |s| && SkipBlanks(s[p..]) == SkipBlanks(s[start..])
    {
      Suffix(s, p);
      p := p + 1;
    }
    if p < |s| { Suffix(s, p); }
  }

  method White(s: string, start: nat) returns (p: nat)
    requires start <= |s|
    ensures start <= p <= |s| && s[p..] == SkipWhite(s[start..])
  {
    p := start;
    while p < |s| && (s[p] == ' ' || s[p] == '\t' || s[p] == '\n' || s[p] == '\r')
      invariant start <= p <= |s| && SkipWhite(s[p..]) == SkipWhite(s[start..])
    {
      Suffix(s, p);
      p := p + 1;
    }
    if p < |s| { Suffix(s, p); }
  }

  method Comma(s: string, start: nat) returns (p: nat)
    requires start <= |s|
    ensures start <= p <= |s| && s[p..] == SkipComma(s[start..])
  {
    p := Blanks(s, start);
    if p < |s| {
      Suffix(s, p);
      if s[p] == ',' {
        p := p + 1;
      }
    }
  }

  /** find('"', p). */
  method NextQuote(s: string, p: nat) returns (end: Option<nat>)
    requires p <= |s|
    ensures end.None? <==> UpToQuote(s[p..]).None?
    ensures end.Some? ==> p <= end.value < |s| && UpToQuote(s[p..]) == Some((s[p..end.value], s[end.value + 1..]))
  {
    var e := Find(s[p..], [QUOTE]);
    match e
    case None => end := None;
    case Some(q) =>
      assert s[p..][..q] == s[p..p + q] && s[p..][q + 1..] == s[p + q + 1..];
      end := Some(p + q);
  }

  method ReadQuoted(s: string, p: nat) returns (r: Option<(string, nat)>)
    requires p <= |s|
    ensures match Quoted(s[p..])
            case None => r.None?
            case Some((text, rest)) => r.Some? && r.value.0 == text && p < r.value.1 <= |s| && s[r.value.1..] == rest
  {
    if p >= |s| || s[p] != QUOTE {
      return None;
    }
    Suffix(s, p);
    var end := NextQuote(s, p + 1);
    r := if end.None? then None else Some((s[p + 1..end.value], end.value + 1));
  }

  /** Where the value after the key begins. */
  method FindValue(s: string, key: string) returns (start: Option<nat>)
    ensures match Found(s, key)
            case None => start.None?
            case Some(t) => start.Some? && start.value <= |s| && s[start.value..] == t
  {
    var k := KeyPattern(key);
    var at := Find(s, k);
    if at.None? {
      return None;
    }
    var p := Blanks(s, at.value + |k|);
    start := Some(p);
  }

  method ExtractU64(s: string, key: string) returns (out: Option<nat>)
    ensures out == U64Field(s, key)
  {
    var start := FindValue(s, key);
    if start.None? {
      return None;
    }
    var p := start.value;
    var r := Strtoull(s[p..]);
    out := if r.None? then None else Some(r.value.value);
  }

  method ExtractU32(s: string, key: string) returns (out: Option<nat>)
    ensures out == U32Field(s, key)
  {
    var start := FindValue(s, key);
    if start.None? {
      return None;
    }
    var p := start.value;
    var r := Strtoull(s[p..]);
    if r.None? || r.value.value > MAX_U32 {
      return None;
    }
    out := Some(r.value.value);
  }

  method ExtractString(s: string, key: string) returns (out: Option<string>)
    ensures out == StringField(s, key)
  {
    var start := FindValue(s, key);
    if start.None? {
      return None;
    }
    var r := ReadQuoted(s, start.value);
    out := if r.None? then None else Some(r.value.0);
  }

  /** One turn of the array loop. */
  method ReadElement(s: string, start: nat) returns (e: Option<byte>, after: nat)
    requires start <= |s|
    ensures match ElementOf(s[start..])
            case None => e.None?
            case Some((b, rest)) => e == Some(b) && start < after <= |s| && s[after..] == rest
  {
    e, after := None, start;
    var p := White(s, start);
    if p >= |s| { return; }
    Suffix(s, p);
    if s[p] == ']' { return; }
    var r := Strtoull(s[p..]);
    if r.None? || r.value.value > 255 { return; }
    ReadingLeavesEnd(s[p..]);
    e := Some(r.value.value);
    after := Comma(s, |s| - |r.value.rest|);
  }

  method ReadArray(s: string, start: nat) returns (out: seq<byte>)
    requires start <= |s|
    ensures out == ByteList(s[start..])
  {
    out := [];
    var p := start;
    while p < |s|
      invariant start <= p <= |s| && out + ByteList(s[p..]) == ByteList(s[start..])
    {
      var e, after := ReadElement(s, p);
      if e.None? {
        return;
      }
      ConcatAssociates(out, [e.value], ByteList(s[after..]));
      out := out + [e.value];
      p := after;
    }
    assert s[p..] == "";
  }

  /** The byte string at p: quoted base64 or an array of numbers. */
  method ReadBytes(s: string, p: nat) returns (out: Option<seq<byte>>)
    requires p <= |s|
    ensures out == BytesAfter(s[p..])
  {
    if p >= |s| {
      return None;
    }
    Suffix(s, p);
    if s[p] == QUOTE {
      var end := NextQuote(s, p + 1);
      if end.None? {
        return None;
      }
      var data := Base64.Decode(s[p + 1..end.value]);
      return Some(data);
    }
    if s[p] != '[' {
      return None;
    }
    var list := ReadArray(s, p + 1);
    out := Some(list);
  }

  method ExtractBytes(s: string, key: string) returns (out: Option<seq<byte>>)
    ensures out == BytesField(s, key)
  {
    var start := FindValue(s, key);
    if start.None? {
      return None;
    }
    out := ReadBytes(s, start.value);
  }

  method ReadColon(s: string, start: nat) returns (r: Option<nat>)
    requires start <= |s|
    ensures match PastColon(s[start..])
            case None => r.None?
            case Some(t) => r.Some? && start < r.value <= |s| && s[r.value..] == t
  {
    var p := Blanks(s, start);
    if p >= |s| || s[p] != ':' {
      return None;
    }
    Suffix(s, p);
    p := Blanks(s, p + 1);
    r := Some(p);
  }

  /** One turn of the object loop. */
  method ReadEntry(s: string, start: nat) returns (e: Option<(string, string)>, after: nat)
    requires start <= |s|
    ensures match EntryOf(s[start..])
            case None => e.None?
            case Some(f) => e == Some((f.key, f.value)) && start < after <= |s| && s[after..] == f.rest
  {
    e, after := None, start;
    var p := White(s, start);
    var key := ReadQuoted(s, p);
    if key.None? { return; }
    var at := ReadColon(s, key.value.1);
    if at.None? { return; }
    var value := ReadQuoted(s, at.value);
    if value.None? { return; }
    e := Some((key.value.0, value.value.0));
    after := Comma(s, value.value.1);
  }

  method ReadEntries(s: string, start: nat) returns (m: map<string, string>)
    requires start <= |s|
    ensures m == EntriesFrom(s[start..], map[])
  {
    m := map[];
    var p := start;
    while p < |s|
      invariant start <= p <= |s| && EntriesFrom(s[p..], m) == EntriesFrom(s[start..], map[])
    {
      var e, after := ReadEntry(s, p);
      if e.None? {
        return;
      }
      m := m[e.value.0 := e.value.1];
      p := after;
    }
    assert s[p..] == "";
  }

  /** The object at p, if one opens there. */
  method ReadObject(s: string, p: nat) returns (out: Option<map<string, string>>)
    requires p <= |s|
    ensures out == MapAfter(s[p..])
  {
    if p >= |s| || s[p] != '{' {
      return None;
    }
    Suffix(s, p);
    var m := ReadEntries(s, p + 1);
    out := Some(m);
  }

  method ExtractStringMap(s: string, key: string) returns (out: Option<map<string, string>>)
    ensures out == MapField(s, key)
  {
    var start := FindValue(s, key);
    if start.None? {
      return None;
    }
    out := ReadObject(s, start.value);
  }
}
