/** Printing a relay.Message and parsing it again (cli/json.hpp): where each key search lands
    in the printed text, and exactly which messages come back. */
module MessageJsonRoundTrip {
  import opened Bytes
  import opened Decimal
  import opened JsonText
  import opened JsonExtract
  import opened MessageJson
  import opened MessageJsonPieces
  import opened Sequences
  import Base64

  /** No double quote in the id or the meta strings. */
  ghost predicate Clean(m: Message) {
    Quoteless(m.id) && forall k :: k in m.meta ==> Quoteless(k) && Quoteless(m.meta[k])
  }

  /** What the round trip is to recover; version and timestamp are not parsed. */
  ghost predicate SameFields(a: Message, b: Message) {
    a.protocol == b.protocol && a.id == b.id && a.payload == b.payload && a.number == b.number && a.meta == b.meta
  }

  ghost predicate AllQuoteless(pieces: seq<string>) {
    forall i :: 0 <= i < |pieces| ==> Quoteless(pieces[i])
  }

  lemma PrintedIntQuoteless(i: int)
    ensures Quoteless(PrintedInt(i))
  {
    PrintedDigits(if i < 0 then -i else i);
  }

  /** The first 22 pieces, by position. */
  ghost predicate Layout(h: seq<string>, m: Message) {
    && |h| >= 22 && h[0] == "protocol" && h[1] == ":" + (PrintedInt(m.protocol) + ",")
    && h[2] == "version" && h[4] == "major" && h[6] == "minor" && h[8] == "patch"
    && h[10] == "id" && h[11] == ":" && h[12] == m.id && h[13] == ","
    && h[14] == "payload" && h[15] == ":" && h[16] == Base64.Encoded(m.payload) && h[17] == ","
    && h[18] == "timestamp" && h[19] == ":" && h[20] == EPOCH && (h[21] == "," || h[21] == "}")
    && (forall i :: i in {3, 5, 7, 9} ==> h[i] != "" && h[i][0] == ':')
  }

  lemma PartsByPosition<T>(p: seq<T>, q: seq<T>, r: seq<T>, s: seq<T>, t: seq<T>, u: seq<T>)
    requires |p| == 2 && |q| == 8 && |r| == |s| == |t| == 4
    ensures var h := p + q + r + s + t + u;
      && h[0] == p[0] && h[1] == p[1] && h[22..] == u
      && h[2..10] == q && h[10..14] == r && h[14..18] == s && h[18..22] == t
  {
  }

  lemma VersionByPosition(v: Version)
    ensures var q := VersionPieces(v);
      && |q| == 8 && q[0] == "version" && q[2] == "major" && q[4] == "minor" && q[6] == "patch"
      && (forall i :: i in {1, 3, 5, 7} ==> q[i] != "" && q[i][0] == ':')
  {
  }

  lemma PiecesLayout(m: Message, pairs: seq<entry>)
    ensures Layout(Pieces(m, pairs), m)
    ensures Pieces(m, pairs)[22..] == TailPieces(m.number, pairs)
    ensures Pieces(m, pairs)[21] == AfterTimestamp(m.number, pairs)
  {
    var b := Base64.Encoded(m.payload);
    var p, q, r, s := NumberPieces("protocol", m.protocol, ","), VersionPieces(m.version), IdPieces(m.id),
      PayloadPieces(b);
    var t, u := TimestampPieces(AfterTimestamp(m.number, pairs)), TailPieces(m.number, pairs);
    VersionByPosition(m.version);
    PartsByPosition(p, q, r, s, t, u);
    LayoutOfParts(Pieces(m, pairs), m, q, AfterTimestamp(m.number, pairs));
  }

  lemma LayoutOfParts(h: seq<string>, m: Message, q: seq<string>, last: string)
    requires |h| >= 22 && h[0] == "protocol" && h[1] == ":" + PrintedInt(m.protocol) + "," && |q| == 8
    requires q[0] == "version" && q[2] == "major" && q[4] == "minor" && q[6] == "patch"
    requires forall i :: i in {1, 3, 5, 7} ==> q[i] != "" && q[i][0] == ':'
    requires h[2..10] == q && h[10..14] == IdPieces(m.id)
    requires h[14..18] == PayloadPieces(Base64.Encoded(m.payload)) && h[18..22] == TimestampPieces(last)
    requires last == "," || last == "}"
    ensures Layout(h, m) && h[21] == last
  {
    ConcatAssociates(":", PrintedInt(m.protocol), ",");
    var r, s, t := h[10..14], h[14..18], h[18..22];
    assert h[10] == r[0] && h[11] == r[1] && h[12] == r[2] && h[13] == r[3];
    assert h[14] == s[0] && h[15] == s[1] && h[16] == s[2] && h[17] == s[3];
    assert h[18] == t[0] && h[19] == t[1] && h[20] == t[2] && h[21] == t[3];
    assert h[2] == q[0] && h[3] == q[1] && h[4] == q[2] && h[5] == q[3];
    assert h[6] == q[4] && h[7] == q[5] && h[8] == q[6] && h[9] == q[7];
  }

  lemma NumberPiecesQuoteless(key: string, i: int, close: string)
    requires Quoteless(key) && Quoteless(close)
    ensures AllQuoteless(NumberPieces(key, i, close))
  {
    PrintedIntQuoteless(i);
  }

  lemma QuotelessConcat(p: seq<string>, q: seq<string>)
    requires AllQuoteless(p) && AllQuoteless(q)
    ensures AllQuoteless(p + q)
  {
  }

  lemma VersionQuoteless(v: Version)
    ensures AllQuoteless(VersionPieces(v))
  {
    var a, b, c := NumberPieces("major", v.major, ","), NumberPieces("minor", v.minor, ","),
      NumberPieces("patch", v.patch, "},");
    NumberPiecesQuoteless("major", v.major, ",");
    NumberPiecesQuoteless("minor", v.minor, ",");
    NumberPiecesQuoteless("patch", v.patch, "},");
    assert AllQuoteless(["version", ":{"]);
    QuotelessConcat(["version", ":{"], a);
    QuotelessConcat(["version", ":{"] + a, b);
    QuotelessConcat(["version", ":{"] + a + b, c);
  }

  lemma FixedQuoteless(id: string, payload: string, last: string)
    requires Quoteless(id) && Quoteless(payload) && Quoteless(last)
    ensures AllQuoteless(IdPieces(id)) && AllQuoteless(PayloadPieces(payload)) && AllQuoteless(TimestampPieces(last))
  {
  }

  lemma HeadQuoteless(m: Message, last: string)
    requires Quoteless(m.id) && Quoteless(last)
    ensures AllQuoteless(HeadPieces(m.protocol, m.version, m.id, Base64.Encoded(m.payload), last))
  {
    var p, q, r := NumberPieces("protocol", m.protocol, ","), VersionPieces(m.version), IdPieces(m.id);
    var s := PayloadPieces(Base64.Encoded(m.payload));
    NumberPiecesQuoteless("protocol", m.protocol, ",");
    VersionQuoteless(m.version);
    Base64.EncodedShape(m.payload);
    FixedQuoteless(m.id, Base64.Encoded(m.payload), last);
    QuotelessConcat(p, q);
    QuotelessConcat(p + q, r);
    QuotelessConcat(p + q + r, s);
    QuotelessConcat(p + q + r + s, TimestampPieces(last));
  }

  lemma {:induction false} EntriesQuoteless(pairs: seq<entry>)
    requires QuotelessPairs(pairs)
    ensures AllQuoteless(EntryPieces(pairs))
  {
    if pairs != [] {
      assert pairs[0] in pairs;
      EntriesQuoteless(pairs[1..]);
    }
  }

  lemma TailQuoteless(number: uint64, pairs: seq<entry>)
    requires QuotelessPairs(pairs)
    ensures AllQuoteless(TailPieces(number, pairs))
  {
    PrintedDigits(number);
    EntriesQuoteless(pairs);
  }

  // ---------------------------------------------------------------- where the searches land

  lemma SearchInPieces(m: Message, pairs: seq<entry>, key: string)
    ensures AfterKey(Text(m, pairs), key) == AfterKey(Rest(Pieces(m, pairs)), key)
  {
    TextIsPieces(m, pairs);
    AfterKeySkips("{", Rest(Pieces(m, pairs)), key);
  }

  /** "protocol" is the first piece, whatever the strings of the message hold. */
  lemma ProtocolLands(pieces: seq<string>, m: Message)
    requires Layout(pieces, m)
    ensures AfterKey(Rest(pieces), "protocol") == Some(PrintedInt(m.protocol) + "," + Rest(pieces[2..]))
  {
    KeyAtHead(pieces, "protocol");
    assert pieces[1][1..] == PrintedInt(m.protocol) + ",";
  }

  /** No piece before the j-th is the key of a field. */
  ghost predicate NoneBefore(pieces: seq<string>, key: string, j: nat) {
    forall i :: 0 <= i < j ==> !IsKeyAt(pieces, key, i)
  }

  lemma NoneBeforeId(pieces: seq<string>, m: Message)
    requires Layout(pieces, m)
    ensures NoneBefore(pieces, "id", 10)
  {
  }

  lemma NoneBeforePayload(pieces: seq<string>, m: Message)
    requires Layout(pieces, m)
    ensures NoneBefore(pieces, "payload", 14)
  {
  }

  /** Neither "seq" nor "meta" is found before the tail. */
  lemma NoTailKeyInHead(pieces: seq<string>, m: Message, key: string)
    requires Layout(pieces, m) && (key == "seq" || key == "meta")
    ensures NoneBefore(pieces, key, 22)
  {
    forall i | 0 <= i < 22 ensures !IsKeyAt(pieces, key, i) {
      if i < 12 {
        NoTailKeyEarly(pieces, m, key, i);
      } else {
        NoTailKeyLate(pieces, m, key, i);
      }
    }
  }

  lemma NoTailKeyEarly(pieces: seq<string>, m: Message, key: string, i: nat)
    requires Layout(pieces, m) && (key == "seq" || key == "meta") && i < 12
    ensures !IsKeyAt(pieces, key, i)
  {
  }

  lemma NoTailKeyLate(pieces: seq<string>, m: Message, key: string, i: nat)
    requires Layout(pieces, m) && (key == "seq" || key == "meta") && 12 <= i < 22
    ensures !IsKeyAt(pieces, key, i)
  {
  }

  lemma IdLands(pieces: seq<string>, m: Message)
    requires Layout(pieces, m) && AllQuoteless(pieces)
    ensures AfterKey(Rest(pieces), "id") == Some(Rest(pieces[12..]))
  {
    NoneBeforeId(pieces, m);
    FirstKey(pieces, "id", 10);
    assert pieces[11][1..] + Rest(pieces[12..]) == Rest(pieces[12..]);
  }

  lemma PayloadLands(pieces: seq<string>, m: Message)
    requires Layout(pieces, m) && AllQuoteless(pieces)
    ensures AfterKey(Rest(pieces), "payload") == Some(Rest(pieces[16..]))
  {
    NoneBeforePayload(pieces, m);
    FirstKey(pieces, "payload", 14);
    assert pieces[15][1..] + Rest(pieces[16..]) == Rest(pieces[16..]);
  }

  // ---------------------------------------------------------------- what each field reads

  lemma NumberFrom(text: string, key: string, n: uint64, rest: string)
    requires AfterKey(text, key) == Some(Printed(n) + rest) && (rest == "" || !IsDigit(rest[0]))
    ensures U64Field(text, key) == Some(n)
    ensures n <= MAX_U32 ==> U32Field(text, key) == Some(n)
  {
    var t := Printed(n) + rest;
    assert t[0] == Printed(n)[0];
    assert SkipBlanks(t) == t;
    PrintedReads(n, rest);
  }

  lemma NegativeFrom(text: string, key: string, n: nat, rest: string)
    requires AfterKey(text, key) == Some("-" + Printed(n) + rest) && (rest == "" || !IsDigit(rest[0]))
    requires 0 < n <= MAX_U32
    ensures U32Field(text, key) == None
  {
    var t := "-" + Printed(n) + rest;
    assert t[0] == '-';
    assert SkipBlanks(t) == t;
    NegatedReads(n, rest);
  }

  lemma StringFrom(text: string, key: string, pieces: seq<string>, j: nat)
    requires j + 1 < |pieces| && Quoteless(pieces[j]) && AfterKey(text, key) == Some(Rest(pieces[j..]))
    ensures StringField(text, key) == Some(pieces[j])
    ensures BytesField(text, key) == Some(Base64.Decoded(pieces[j]))
    ensures U64Field(text, key) == None
  {
    QuotedPiece(pieces, j);
    var t := Rest(pieces[j..]);
    assert SkipBlanks(t) == t;
    NoNumber(t);
  }

  lemma MapFrom(text: string, key: string, pairs: seq<entry>)
    requires AfterKey(text, key) == Some("{" + Rest(EntryPieces(pairs))) && pairs != [] && QuotelessPairs(pairs)
    ensures MapField(text, key) == Some(Assigned(pairs, map[]))
  {
    var t := "{" + Rest(EntryPieces(pairs));
    assert t[0] == '{' && t[1..] == Rest(EntryPieces(pairs));
    assert SkipBlanks(t) == t;
    EntriesRead(pairs, map[]);
  }

  lemma IntFrom(text: string, key: string, i: int, rest: string)
    requires -0x8000_0000 <= i < 0x8000_0000
    requires AfterKey(text, key) == Some(PrintedInt(i) + rest) && (rest == "" || !IsDigit(rest[0]))
    ensures U32Field(text, key) == if i >= 0 then Some(i) else None
  {
    if i >= 0 {
      NumberFrom(text, key, i, rest);
    } else {
      NegativeFrom(text, key, -i, rest);
    }
  }

  lemma ProtocolReads(text: string, pieces: seq<string>, m: Message)
    requires Layout(pieces, m) && AfterKey(text, "protocol") == AfterKey(Rest(pieces), "protocol")
    ensures U32Field(text, "protocol") == if m.protocol >= 0 then Some(m.protocol) else None
  {
    ProtocolLands(pieces, m);
    ConcatAssociates(PrintedInt(m.protocol), ",", Rest(pieces[2..]));
    IntFrom(text, "protocol", m.protocol, "," + Rest(pieces[2..]));
  }

  /** Inside the meta object a key is followed by a bare colon and a value. */
  lemma {:induction false} EntryKey(pairs: seq<entry>, key: string, j: nat)
    requires IsKeyAt(EntryPieces(pairs), key, j) && key != "" && key[0] !in ":,}"
    ensures j + 2 < |EntryPieces(pairs)| && EntryPieces(pairs)[j + 1] == ":"
  {
    var e := EntryPieces(pairs);
    assert e[1] == ":" && (e[3] == "," || e[3] == "}}");
    if j >= 4 {
      assert IsKeyAt(EntryPieces(pairs[1..]), key, j - 4);
      EntryKey(pairs[1..], key, j - 4);
    }
  }

  /** The pieces from the 22nd on, with what comes before them. */
  ghost predicate TailAt(pieces: seq<string>, m: Message, pairs: seq<entry>) {
    Layout(pieces, m) && pieces[22..] == TailPieces(m.number, pairs)
  }

  lemma TailPiece(pieces: seq<string>, m: Message, pairs: seq<entry>, j: nat)
    requires TailAt(pieces, m, pairs) && 22 <= j < |pieces|
    ensures pieces[j] == TailPieces(m.number, pairs)[j - 22] && pieces[j..] == TailPieces(m.number, pairs)[j - 22..]
  {
    assert pieces[22..][j - 22..] == pieces[j..];
  }

  lemma SeqTail(number: uint64, pairs: seq<entry>)
    requires number != 0
    ensures var tail := TailPieces(number, pairs);
      |tail| >= 2 && tail[0] == "seq" && tail[1] == ":" + (Printed(number) + if pairs == [] then "}" else ",")
  {
    ConcatAssociates(":", Printed(number), if pairs == [] then "}" else ",");
  }

  lemma SeqLands(pieces: seq<string>, m: Message, value: string)
    requires Layout(pieces, m) && AllQuoteless(pieces) && |pieces| >= 24 && pieces[22] == "seq" &&
      pieces[23] == ":" + value
    ensures AfterKey(Rest(pieces), "seq") == Some(value + Rest(pieces[24..]))
  {
    NoTailKeyInHead(pieces, m, "seq");
    FirstKey(pieces, "seq", 22);
    assert pieces[23][1..] == value;
  }

  lemma NumberReads(text: string, pieces: seq<string>, m: Message, pairs: seq<entry>)
    requires TailAt(pieces, m, pairs) && AllQuoteless(pieces) && m.number != 0
    requires AfterKey(text, "seq") == AfterKey(Rest(pieces), "seq")
    ensures U64Field(text, "seq") == Some(m.number)
  {
    var close := if pairs == [] then "}" else ",";
    SeqTail(m.number, pairs);
    TailPiece(pieces, m, pairs, 22);
    TailPiece(pieces, m, pairs, 23);
    SeqLands(pieces, m, Printed(m.number) + close);
    ConcatAssociates(Printed(m.number), close, Rest(pieces[24..]));
    NumberFrom(text, "seq", m.number, close + Rest(pieces[24..]));
  }

  /** With no sequence number printed, "seq" can only be found as a meta key, whose quoted
      value is no number. */
  lemma NoNumberReads(text: string, pieces: seq<string>, m: Message, pairs: seq<entry>)
    requires TailAt(pieces, m, pairs) && AllQuoteless(pieces) && m.number == 0
    requires AfterKey(text, "seq") == AfterKey(Rest(pieces), "seq")
    ensures U64Field(text, "seq") == None
  {
    if AfterKey(Rest(pieces), "seq").Some? {
      SomeKey(pieces, "seq");
      var j: nat :| IsKeyAt(pieces, "seq", j) &&
        AfterKey(Rest(pieces), "seq") == Some(pieces[j + 1][1..] + Rest(pieces[j + 2..]));
      NoTailKeyInHead(pieces, m, "seq");
      SeqAmongEntries(pieces, m, pairs, j);
      assert pieces[j + 1][1..] + Rest(pieces[j + 2..]) == Rest(pieces[j + 2..]);
      NotANumber(text, "seq", Rest(pieces[j + 2..]));
    }
  }

  lemma NotANumber(text: string, key: string, t: string)
    requires AfterKey(text, key) == Some(t) && t != "" && t[0] == QUOTE
    ensures U64Field(text, key) == None
  {
    assert SkipBlanks(t) == t;
    NoNumber(t);
  }

  lemma SeqAmongEntries(pieces: seq<string>, m: Message, pairs: seq<entry>, j: nat)
    requires TailAt(pieces, m, pairs) && m.number == 0 && j >= 22 && IsKeyAt(pieces, "seq", j)
    ensures j + 2 < |pieces| && pieces[j + 1] == ":"
  {
    MetaOnly(pairs);
    TailKey(pieces, TailPieces(m.number, pairs), "seq", j);
    KeyInMeta(pairs, "seq", j - 22);
  }

  /** A key found in the meta part is found among the entries. */
  lemma KeyInMeta(pairs: seq<entry>, key: string, n: nat)
    requires IsKeyAt(TailPieces(0, pairs), key, n) && key != "meta" && key != "" && key[0] !in ":,}"
    ensures n + 2 < |TailPieces(0, pairs)| && TailPieces(0, pairs)[n + 1] == ":"
  {
    MetaOnly(pairs);
    KeyAfterTwo("meta", ":{", EntryPieces(pairs), key, n);
    EntryKey(pairs, key, n - 2);
    AfterTwo("meta", ":{", EntryPieces(pairs), n + 1);
  }

  lemma AfterTwo(a: string, b: string, entries: seq<string>, n: nat)
    requires 2 <= n < |entries| + 2
    ensures ([a, b] + entries)[n] == entries[n - 2]
  {
  }

  lemma TailKey(pieces: seq<string>, tail: seq<string>, key: string, j: nat)
    requires |pieces| >= 22 && pieces[22..] == tail && j >= 22 && IsKeyAt(pieces, key, j)
    ensures IsKeyAt(tail, key, j - 22) && |tail| == |pieces| - 22
    ensures forall k :: 22 <= k < |pieces| ==> tail[k - 22] == pieces[k]
  {
    assert tail[j - 22] == pieces[j] && tail[j - 21] == pieces[j + 1];
  }

  lemma MetaOnly(pairs: seq<entry>)
    ensures TailPieces(0, pairs) == if pairs == [] then [] else ["meta", ":{"] + EntryPieces(pairs)
  {
  }

  lemma KeyAfterTwo(a: string, b: string, entries: seq<string>, key: string, n: nat)
    requires a != key && b != key && IsKeyAt([a, b] + entries, key, n)
    ensures n >= 2 && IsKeyAt(entries, key, n - 2)
  {
    var all := [a, b] + entries;
    assert all[0] == a && all[1] == b;
    assert all[n + 1] == if n == 0 then b else entries[n - 1];
  }

  lemma MetaTail(number: uint64, pairs: seq<entry>)
    requires pairs != []
    ensures var k, tail := if number == 0 then 0 else 2, TailPieces(number, pairs);
      && |tail| >= k + 2 && tail[k] == "meta" && tail[k + 1] == ":{" && tail[k + 2..] == EntryPieces(pairs)
      && (k == 2 ==> tail[0] == "seq" && tail[1] != "meta")
  {
    if number != 0 {
      var tail := TailPieces(number, pairs);
      assert tail[1] == ":" + Printed(number) + ",";
      assert tail[1][0] == ':';
    }
  }

  lemma MetaReads(text: string, pieces: seq<string>, m: Message, pairs: seq<entry>)
    requires TailAt(pieces, m, pairs) && AllQuoteless(pieces) && QuotelessPairs(pairs) && pairs != []
    requires AfterKey(text, "meta") == AfterKey(Rest(pieces), "meta")
    ensures MapField(text, "meta") == Some(Assigned(pairs, map[]))
  {
    var j := if m.number == 0 then 22 else 24;
    MetaTail(m.number, pairs);
    MetaLands(pieces, TailPieces(m.number, pairs), j);
    NoTailKeyInHead(pieces, m, "meta");
    FirstKey(pieces, "meta", j);
    assert pieces[j + 1][1..] == "{";
    MapFrom(text, "meta", pairs);
  }

  lemma MetaLands(pieces: seq<string>, tail: seq<string>, j: nat)
    requires 22 <= j && |pieces| >= 22 && pieces[22..] == tail && j - 20 <= |tail|
    ensures pieces[j] == tail[j - 22] && pieces[j + 1] == tail[j - 21] && pieces[j + 2..] == tail[j - 20..]
    ensures forall i :: 22 <= i < j ==> pieces[i] == tail[i - 22]
  {
  }

  lemma NoMetaReads(text: string, pieces: seq<string>, m: Message)
    requires TailAt(pieces, m, []) && AllQuoteless(pieces)
    requires AfterKey(text, "meta") == AfterKey(Rest(pieces), "meta")
    ensures MapField(text, "meta") == None
  {
    NoTailKeyInHead(pieces, m, "meta");
    forall i | 22 <= i < |pieces| ensures !IsKeyAt(pieces, "meta", i) {
      TailPiece(pieces, m, [], i);
    }
    NoKey(pieces, "meta");
  }

  // ---------------------------------------------------------------- the theorem

  /** A clean message comes back whole when its protocol number is not negative. */
  lemma CleanComesBack(m: Message, pairs: seq<entry>)
    requires Listing(pairs, m.meta) && Clean(m) && m.protocol >= 0
    ensures Parsed(Text(m, pairs)) == Ok(m.(version := Version(0, 0, 0)))
  {
    var text, pieces := Text(m, pairs), Pieces(m, pairs);
    PiecesLayout(m, pairs);
    CleanPieces(m, pairs);
    SearchInPieces(m, pairs, "protocol");
    SearchInPieces(m, pairs, "id");
    SearchInPieces(m, pairs, "payload");
    SearchInPieces(m, pairs, "seq");
    SearchInPieces(m, pairs, "meta");
    ComesBack(text, pieces, m, pairs);
  }

  lemma CleanPieces(m: Message, pairs: seq<entry>)
    requires Listing(pairs, m.meta) && Clean(m)
    ensures QuotelessPairs(pairs) && AllQuoteless(Pieces(m, pairs))
  {
    HeadQuoteless(m, AfterTimestamp(m.number, pairs));
    TailQuoteless(m.number, pairs);
  }

  lemma IdComesBack(text: string, pieces: seq<string>, m: Message)
    requires Layout(pieces, m) && AllQuoteless(pieces) && AfterKey(text, "id") == AfterKey(Rest(pieces), "id")
    ensures StringField(text, "id") == Some(m.id)
  {
    IdLands(pieces, m);
    StringFrom(text, "id", pieces, 12);
  }

  lemma PayloadComesBack(text: string, pieces: seq<string>, m: Message)
    requires Layout(pieces, m) && AllQuoteless(pieces) && AfterKey(text, "payload") == AfterKey(Rest(pieces), "payload")
    ensures BytesField(text, "payload") == Some(m.payload)
  {
    PayloadLands(pieces, m);
    StringFrom(text, "payload", pieces, 16);
    Base64.RoundTrip(m.payload);
  }

  lemma NumberComesBack(text: string, pieces: seq<string>, m: Message, pairs: seq<entry>)
    requires TailAt(pieces, m, pairs) && AllQuoteless(pieces) && AfterKey(text, "seq") == AfterKey(Rest(pieces), "seq")
    ensures var number := U64Field(text, "seq"); (if number.Some? then number.value else 0) == m.number
  {
    if m.number == 0 {
      NoNumberReads(text, pieces, m, pairs);
    } else {
      NumberReads(text, pieces, m, pairs);
    }
  }

  lemma MetaComesBack(text: string, pieces: seq<string>, m: Message, pairs: seq<entry>)
    requires TailAt(pieces, m, pairs) && AllQuoteless(pieces) &&
      AfterKey(text, "meta") == AfterKey(Rest(pieces), "meta")
    requires QuotelessPairs(pairs) && Listing(pairs, m.meta)
    ensures var meta := MapField(text, "meta"); (if meta.Some? then meta.value else map[]) == m.meta
  {
    ListingEmpty(pairs, m.meta);
    if pairs == [] {
      NoMetaReads(text, pieces, m);
    } else {
      MetaReads(text, pieces, m, pairs);
      ListingRebuilds(pairs, m.meta);
    }
  }

  lemma ComesBack(text: string, pieces: seq<string>, m: Message, pairs: seq<entry>)
    requires TailAt(pieces, m, pairs) && AllQuoteless(pieces) && QuotelessPairs(pairs) && Listing(pairs, m.meta) &&
      m.protocol >= 0
    requires AfterKey(text, "protocol") == AfterKey(Rest(pieces), "protocol")
    requires AfterKey(text, "id") == AfterKey(Rest(pieces), "id")
    requires AfterKey(text, "payload") == AfterKey(Rest(pieces), "payload")
    requires AfterKey(text, "seq") == AfterKey(Rest(pieces), "seq")
    requires AfterKey(text, "meta") == AfterKey(Rest(pieces), "meta")
    ensures Parsed(text) == Ok(m.(version := Version(0, 0, 0)))
  {
    ProtocolReads(text, pieces, m);
    IdComesBack(text, pieces, m);
    PayloadComesBack(text, pieces, m);
    NumberComesBack(text, pieces, m, pairs);
    MetaComesBack(text, pieces, m, pairs);
  }

  // ---------------------------------------------------------------- what is parsed is clean

  lemma QuotedIsQuoteless(t: string)
    ensures Quoted(t).Some? ==> Quoteless(Quoted(t).value.0)
  {
    if t != "" {
      QuotelessUpToQuote(t[1..]);
    }
  }

  ghost predicate CleanMap(meta: map<string, string>) {
    forall k :: k in meta ==> Quoteless(k) && Quoteless(meta[k])
  }

  lemma EntryIsQuoteless(t: string)
    ensures EntryOf(t).Some? ==> Quoteless(EntryOf(t).value.key) && Quoteless(EntryOf(t).value.value)
  {
    var key := Quoted(SkipWhite(t));
    QuotedIsQuoteless(SkipWhite(t));
    if key.Some? && PastColon(key.value.1).Some? {
      QuotedIsQuoteless(PastColon(key.value.1).value);
    }
  }

  lemma {:induction false} EntriesAreClean(t: string, out: map<string, string>)
    requires CleanMap(out)
    ensures CleanMap(EntriesFrom(t, out))
    decreases |t|
  {
    EntryIsQuoteless(t);
    if EntryOf(t).Some? {
      var e := EntryOf(t).value;
      EntriesAreClean(e.rest, out[e.key := e.value]);
    }
  }

  /** Whatever the text, no string of a parsed message holds a double quote. */
  lemma ParsedIsClean(text: string)
    ensures Parsed(text).Ok? ==> Clean(Parsed(text).value)
  {
    var id := AfterKey(text, "id");
    if id.Some? {
      QuotedIsQuoteless(SkipBlanks(id.value));
    }
    var meta := AfterKey(text, "meta");
    if meta.Some? && SkipBlanks(meta.value) != "" {
      EntriesAreClean(SkipBlanks(meta.value)[1..], map[]);
    }
  }

  /** Printing and parsing recovers protocol, id, payload, sequence number and meta exactly
      when neither the id nor a meta string holds a double quote and the protocol number
      is not negative. */
  lemma RoundTripExactly(m: Message, pairs: seq<entry>)
    requires Listing(pairs, m.meta)
    ensures (Parsed(Text(m, pairs)).Ok? && SameFields(Parsed(Text(m, pairs)).value, m)) <==> Clean(m) && m.protocol >= 0
  {
    if Clean(m) && m.protocol >= 0 {
      CleanComesBack(m, pairs);
    } else {
      ParsedIsClean(Text(m, pairs));
      SearchInPieces(m, pairs, "protocol");
      PiecesLayout(m, pairs);
      ProtocolReads(Text(m, pairs), Pieces(m, pairs), m);
    }
  }
}