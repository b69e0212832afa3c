/** relay.Message as one line of JSON (cli/json.hpp): the printer and the parser. */
module MessageJson {
  import opened Bytes
  import opened Decimal
  import opened JsonExtract
  import opened JsonText
  import opened Sequences
  import Base64

  type int32 = x: int | -0x8000_0000 <= x < 0x8000_0000
  type uint64 = x: int | 0 <= x < 0x1_0000_0000_0000_0000

  datatype Version = Version(major: int32, minor: int32, patch: int32)

  /** protocol is the number of the enumerator; the printed timestamp is a constant. */
  datatype Message = Message(
    protocol: int32, version: Version, id: string, payload: seq<byte>, number: uint64, meta: map<string, string>)

  type entry = (string, string)

  // ---------------------------------------------------------------- the order of the meta entries

  /** std::string::operator<. */
  predicate Less(a: string, b: string) {
    b != "" && (a == "" || a[0] < b[0] || (a[0] == b[0] && Less(a[1..], b[1..])))
  }

  lemma {:induction false} LessTotal(a: string, b: string)
    ensures Less(a, b) || a == b || Less(b, a)
  {
    if a != "" && b != "" && a[0] == b[0] {
      LessTotal(a[1..], b[1..]);
      assert a == [a[0]] + a[1..] && b == [b[0]] + b[1..];
    }
  }

  lemma {:induction false} LessTransitive(a: string, b: string, c: string)
    requires Less(a, b) && Less(b, c)
    ensures Less(a, c)
  {
    if a != "" && a[0] == b[0] && b[0] == c[0] {
      LessTransitive(a[1..], b[1..], c[1..]);
    }
  }

  lemma {:induction false} LessIrreflexive(a: string)
    ensures !Less(a, a)
  {
    if a != "" {
      LessIrreflexive(a[1..]);
    }
  }

  /** At the first place where they differ, the character with the smaller code, or the end,
      comes first. */
  ghost predicate DifferAt(a: string, b: string, k: nat) {
    && k <= |a| && k < |b| && a[..k] == b[..k]
    && (k == |a| || a[k] as int < b[k] as int)
  }

  lemma {:induction false} LessMeans(a: string, b: string)
    ensures Less(a, b) <==> exists k: nat :: DifferAt(a, b, k)
  {
    if a != "" && b != "" && a[0] == b[0] {
      LessMeans(a[1..], b[1..]);
      if Less(a[1..], b[1..]) {
        var k: nat :| DifferAt(a[1..], b[1..], k);
        assert a[..k + 1] == [a[0]] + a[1..][..k] && b[..k + 1] == [b[0]] + b[1..][..k];
        assert DifferAt(a, b, k + 1);
      }
      if k: nat :| DifferAt(a, b, k) {
        assert k > 0;
        assert a[1..][..k - 1] == a[..k][1..] && b[1..][..k - 1] == b[..k][1..];
        assert DifferAt(a[1..], b[1..], k - 1);
      }
    } else if Less(a, b) {
      assert DifferAt(a, b, 0);
    } else if a != "" && b != "" {
      forall k: nat ensures !DifferAt(a, b, k) {
        assert k <= |a| && k < |b| && k > 0 ==> a[..k][0] == a[0] && b[..k][0] == b[0];
      }
    }
  }

  ghost predicate Ascending(pairs: seq<entry>) {
    forall i, j :: 0 <= i < j < |pairs| ==> Less(pairs[i].0, pairs[j].0)
  }

  /** The pairs are the map's entries, each once. */
  ghost predicate Listing(pairs: seq<entry>, meta: map<string, string>) {
    && (forall i, j :: 0 <= i < j < |pairs| ==> pairs[i].0 != pairs[j].0)
    && (forall p :: p in pairs ==> p.0 in meta && meta[p.0] == p.1)
    && (forall k :: k in meta ==> (k, meta[k]) in pairs)
  }

  function Insert(pairs: seq<entry>, p: entry): seq<entry> {
    if pairs != [] && Less(pairs[0].0, p.0) then [pairs[0]] + Insert(pairs[1..], p) else [p] + pairs
  }

  lemma {:induction false} InsertHolds(pairs: seq<entry>, p: entry)
    ensures forall q :: q in Insert(pairs, p) <==> q in pairs || q == p
  {
    if pairs != [] && Less(pairs[0].0, p.0) {
      InsertHolds(pairs[1..], p);
      assert pairs == [pairs[0]] + pairs[1..];
    }
  }

  lemma {:induction false} InsertAscends(pairs: seq<entry>, p: entry)
    requires Ascending(pairs) && forall q :: q in pairs ==> q.0 != p.0
    ensures Ascending(Insert(pairs, p))
  {
    if pairs != [] && Less(pairs[0].0, p.0) {
      var tail := pairs[1..];
      assert forall q :: q in tail ==> q in pairs;
      InsertAscends(tail, p);
      InsertHolds(tail, p);
      assert forall q :: q in tail ==> Less(pairs[0].0, q.0);
      AscendingCons(pairs[0], Insert(tail, p));
    } else if pairs != [] {
      LessTotal(pairs[0].0, p.0);
      assert pairs[0] in pairs;
      forall q | q in pairs ensures Less(p.0, q.0) {
        var i :| 0 <= i < |pairs| && pairs[i] == q;
        if i > 0 {
          LessTransitive(p.0, pairs[0].0, q.0);
        }
      }
      AscendingCons(p, pairs);
    }
  }

  lemma AscendingCons(p: entry, pairs: seq<entry>)
    requires Ascending(pairs) && forall q :: q in pairs ==> Less(p.0, q.0)
    ensures Ascending([p] + pairs)
  {
    var all := [p] + pairs;
    forall i, j | 0 <= i < j < |all| ensures Less(all[i].0, all[j].0) {
      assert all[j] == pairs[j - 1];
      if i > 0 {
        assert all[i] == pairs[i - 1];
      } else {
        assert pairs[j - 1] in pairs;
      }
    }
  }

  lemma FirstIsIn(q: seq<entry>)
    ensures q != [] ==> exists e :: e in q
  {
    if q != [] {
      assert q[0] in q;
    }
  }

  /** Two ascending lists of the same entries are the same list. */
  lemma {:induction false} SameEntries(p: seq<entry>, q: seq<entry>)
    requires Ascending(p) && Ascending(q) && forall e :: e in p <==> e in q
    ensures p == q
  {
    if p == [] {
      FirstIsIn(q);
    } else {
      assert p[0] in q && q[0] in p;
      SameFirst(p, q);
      AscendingTail(p);
      AscendingTail(q);
      SameEntries(p[1..], q[1..]);
      assert p == [p[0]] + p[1..] && q == [q[0]] + q[1..];
    }
  }

  lemma SameFirst(p: seq<entry>, q: seq<entry>)
    requires Ascending(p) && Ascending(q) && p != [] && q != [] && p[0] in q && q[0] in p
    ensures p[0] == q[0]
  {
    var k :| 0 <= k < |q| && q[k] == p[0];
    var j :| 0 <= j < |p| && p[j] == q[0];
    if k > 0 && j > 0 {
      LessTransitive(p[0].0, q[0].0, p[0].0);
      LessIrreflexive(p[0].0);
    }
  }

  /** The entries after the first are those with another key. */
  lemma AscendingTail(p: seq<entry>)
    requires Ascending(p) && p != []
    ensures Ascending(p[1..]) && forall e :: e in p[1..] <==> e in p && e != p[0]
  {
    LessIrreflexive(p[0].0);
    forall e ensures e in p[1..] <==> e in p && e != p[0] {
      if e in p[1..] {
        var i :| 0 <= i < |p[1..]| && p[1..][i] == e;
        assert p[i + 1] == e;
      }
      if e in p && e != p[0] {
        var i :| 0 <= i < |p| && p[i] == e;
        assert p[1..][i - 1] == e;
      }
    }
  }

  /** So a map has one listing in ascending order of its keys. */
  lemma OneListing(p: seq<entry>, q: seq<entry>, meta: map<string, string>)
    requires Listing(p, meta) && Listing(q, meta) && Ascending(p) && Ascending(q)
    ensures p == q
  {
    forall e: entry ensures e in p <==> e in q {
      if e in p {
        assert (e.0, meta[e.0]) in q;
      }
      if e in q {
        assert (e.0, meta[e.0]) in p;
      }
    }
    SameEntries(p, q);
  }

  /** The entries in ascending order of their keys. */
  method SortedEntries(meta: map<string, string>) returns (pairs: seq<entry>)
    ensures Listing(pairs, meta) && Ascending(pairs)
  {
    pairs := [];
    var keys := meta.Keys;
    while keys != {}
      invariant keys <= meta.Keys && Ascending(pairs)
      invariant forall p :: p in pairs <==> p.0 in meta && p.0 !in keys && meta[p.0] == p.1
      decreases |keys|
    {
      var k :| k in keys;
      InsertHolds(pairs, (k, meta[k]));
      InsertAscends(pairs, (k, meta[k]));
      pairs := Insert(pairs, (k, meta[k]));
      keys := keys - {k};
    }
    forall i, j | 0 <= i < j < |pairs| ensures pairs[i].0 != pairs[j].0 {
      LessIrreflexive(pairs[i].0);
    }
  }

  // ---------------------------------------------------------------- printing

  /** operator<< of an int. */
  function PrintedInt(i: int): string { if i < 0 then "-" + Printed(-i) else Printed(i) }

  /** A key and an unquoted number, and what closes the field. */
  function NumberField(key: string, i: int, close: string): string { "\"" + key + "\":" + PrintedInt(i) + close }

  function VersionText(v: Version): string {
    "\"version\":{" + NumberField("major", v.major, ",") + NumberField("minor", v.minor, ",") +
      NumberField("patch", v.patch, "},")
  }

  function IdText(id: string): string { "\"id\":\"" + id + "\"," }

  function PayloadText(payload: string): string { "\"payload\":\"" + payload + "\"," }

  const TIMESTAMP_TEXT: string := "\"timestamp\":\"1970-01-01T00:00:00Z\""

  function HeadText(protocol: int, version: Version, id: string, payload: string): string {
    NumberField("protocol", protocol, ",") + VersionText(version) + IdText(id) + PayloadText(payload) + TIMESTAMP_TEXT
  }

  function EntryText(p: entry): string { "\"" + p.0 + "\":\"" + p.1 + "\"" }

  /** The entries from the i-th on, commas between them. */
  function EntriesText(pairs: seq<entry>, i: nat): string
    decreases |pairs| - i
  {
    if i >= |pairs| then "" else (if i > 0 then "," else "") + EntryText(pairs[i]) + EntriesText(pairs, i + 1)
  }

  function NumberText(number: uint64): string { if number != 0 then ",\"seq\":" + Printed(number) else "" }

  function MetaText(pairs: seq<entry>): string {
    if pairs == [] then "" else ",\"meta\":{" + EntriesText(pairs, 0) + "}"
  }

  /** message_to_json, given the entries in the order they are printed. */
  function Text(m: Message, pairs: seq<entry>): string {
    "{" + HeadText(m.protocol, m.version, m.id, Base64.Encoded(m.payload)) + NumberText(m.number) + MetaText(pairs) +
      "}"
  }

  lemma NumbersAre(protocol: int, v: Version)
    ensures NumberField("protocol", protocol, ",") == "\"protocol\":" + PrintedInt(protocol) + ","
    ensures NumberField("major", v.major, ",") == "\"major\":" + PrintedInt(v.major) + ","
    ensures NumberField("minor", v.minor, ",") == "\"minor\":" + PrintedInt(v.minor) + ","
    ensures NumberField("patch", v.patch, "},") == "\"patch\":" + PrintedInt(v.patch) + "},"
  {
    assert "\"" + "protocol" + "\":" == "\"protocol\":";
    assert "\"" + "major" + "\":" == "\"major\":";
    assert "\"" + "minor" + "\":" == "\"minor\":";
    assert "\"" + "patch" + "\":" == "\"patch\":";
  }

  /** message_to_json, character for character. */
  lemma TextIs(m: Message, pairs: seq<entry>)
    ensures Text(m, pairs)
      == "{" + (("\"protocol\":" + PrintedInt(m.protocol) + ",") +
                ("\"version\":{" + ("\"major\":" + PrintedInt(m.version.major) + ",") +
                                   ("\"minor\":" + PrintedInt(m.version.minor) + ",") +
                                   ("\"patch\":" + PrintedInt(m.version.patch) + "},")) +
                ("\"id\":\"" + m.id + "\",") +
                ("\"payload\":\"" + Base64.Encoded(m.payload) + "\",") +
                "\"timestamp\":\"1970-01-01T00:00:00Z\"") +
         (if m.number != 0 then ",\"seq\":" + Printed(m.number) else "") +
         (if pairs != [] then ",\"meta\":{" + EntriesText(pairs, 0) + "}" else "") + "}"
  {
    NumbersAre(m.protocol, m.version);
  }

  /** The entries, a comma before each but the first. */
  lemma {:induction false} EntriesAre(pairs: seq<entry>, i: nat, p: entry)
    requires i <= |pairs|
    ensures EntriesText(pairs + [p], i)
      == EntriesText(pairs, i) + ((if pairs == [] then "" else ",") + ("\"" + p.0 + "\":\"" + p.1 + "\""))
    ensures EntriesText([], 0) == ""
    decreases |pairs| - i
  {
    var more := pairs + [p];
    if i < |pairs| {
      var first := (if i > 0 then "," else "") + EntryText(pairs[i]);
      EntriesAre(pairs, i + 1, p);
      assert more[i] == pairs[i];
      ConcatAssociates(first, EntriesText(pairs, i + 1), (if pairs == [] then "" else ",") + EntryText(p));
    } else {
      var last := (if i > 0 then "," else "") + EntryText(p);
      assert more[i] == p && EntriesText(more, i + 1) == "" && EntriesText(pairs, i) == "";
      assert last + "" == last == "" + last;
    }
  }

  method PrintEntries(text: string, pairs: seq<entry>) returns (out: string)
    ensures out == text + EntriesText(pairs, 0)
  {
    out := text;
    var i := 0;
    while i < |pairs|
      invariant i <= |pairs| && out + EntriesText(pairs, i) == text + EntriesText(pairs, 0)
    {
      var comma := if i > 0 then "," else "";
      ConcatAssociates(out, comma + EntryText(pairs[i]), EntriesText(pairs, i + 1));
      ConcatAssociates(out, comma, EntryText(pairs[i]));
      out := out + comma;
      out := out + EntryText(pairs[i]);
      i := i + 1;
    }
    assert out + "" == out;
  }

  method PrintMeta(text: string, meta: map<string, string>) returns (out: string, ghost pairs: seq<entry>)
    ensures Listing(pairs, meta) && Ascending(pairs) && out == text + MetaText(pairs)
  {
    var sorted := SortedEntries(meta);
    pairs := sorted;
    ListingEmpty(sorted, meta);
    if meta == map[] {
      return text, pairs;
    }
    var open := ",\"meta\":{";
    out := PrintEntries(text + open, sorted);
    ConcatAssociates(text, open, EntriesText(sorted, 0));
    ConcatAssociates(text, open + EntriesText(sorted, 0), "}");
    out := out + "}";
  }

  method Print(m: Message) returns (text: string)
    ensures exists pairs :: Listing(pairs, m.meta) && Ascending(pairs) && text == Text(m, pairs)
  {
    var payload := Base64.Encode(m.payload);
    text := "{";
    text := text + HeadText(m.protocol, m.version, m.id, payload);
    text := text + NumberText(m.number);
    ghost var pairs: seq<entry>;
    text, pairs := PrintMeta(text, m.meta);
    text := text + "}";
  }

  lemma ListingEmpty(pairs: seq<entry>, meta: map<string, string>)
    requires Listing(pairs, meta)
    ensures pairs == [] <==> meta == map[]
  {
    if pairs != [] {
      assert pairs[0] in pairs;
    }
    if meta != map[] {
      var k :| k in meta;
      assert (k, meta[k]) in pairs;
    }
  }

  // ---------------------------------------------------------------- parsing

  datatype ParseError = MissingProtocol | MissingId

  /** static_cast of a uint32_t to the enumeration's int. */
  function Enumerator(v: nat): (e: int32)
    requires v <= MAX_U32
    ensures (e - v) % 0x1_0000_0000 == 0
  {
    if v < 0x8000_0000 then v else v - 0x1_0000_0000
  }

  /** parse_message_json: the version keeps its default, an optional field that does not
      read keeps its own. */
  function Parsed(s: string): Result<Message, ParseError> {
    var protocol := U32Field(s, "protocol");
    if protocol.None? then Err(MissingProtocol)
    else
      var id := StringField(s, "id");
      if id.None? then Err(MissingId)
      else
        var payload := BytesField(s, "payload");
        var number := U64Field(s, "seq");
        var meta := MapField(s, "meta");
        Ok(Message(
             Enumerator(protocol.value), Version(0, 0, 0), id.value,
             if payload.Some? then payload.value else [],
             if number.Some? then number.value else 0,
             if meta.Some? then meta.value else map[]))
  }

  /** A text parses exactly if both required fields read, the protocol first; a field that is
      not there keeps its default. */
  lemma WithoutFields(s: string)
    ensures Parsed(s).Ok? <==> U32Field(s, "protocol").Some? && StringField(s, "id").Some?
    ensures Parsed(s) == Err(MissingProtocol) <==> U32Field(s, "protocol").None?
    ensures (forall q: nat :: !OccursAt(s, "\"protocol\":", q)) ==> Parsed(s) == Err(MissingProtocol)
    ensures (forall q: nat :: !OccursAt(s, "\"id\":", q)) ==> Parsed(s).Err?
    ensures Parsed(s).Ok? && (forall q: nat :: !OccursAt(s, "\"payload\":", q)) ==> Parsed(s).value.payload == []
    ensures Parsed(s).Ok? && (forall q: nat :: !OccursAt(s, "\"seq\":", q)) ==> Parsed(s).value.number == 0
    ensures Parsed(s).Ok? && (forall q: nat :: !OccursAt(s, "\"meta\":", q)) ==> Parsed(s).value.meta == map[]
  {
    NotThere(s, "protocol", "\"protocol\":");
    NotThere(s, "id", "\"id\":");
    NotThere(s, "payload", "\"payload\":");
    NotThere(s, "seq", "\"seq\":");
    NotThere(s, "meta", "\"meta\":");
  }

  lemma NotThere(s: string, key: string, quoted: string)
    requires quoted == [QUOTE] + key + [QUOTE, ':']
    ensures (forall q: nat :: !OccursAt(s, quoted, q)) ==> AfterKey(s, key) == None
  {
    FindMeans(s, quoted);
  }

  method Parse(s: string) returns (r: Result<Message, ParseError>)
    ensures r == Parsed(s)
  {
    var protocol := ExtractU32(s, "protocol");
    if protocol.None? {
      return Err(MissingProtocol);
    }
    var id := ExtractString(s, "id");
    if id.None? {
      return Err(MissingId);
    }
    var m := Message(Enumerator(protocol.value), Version(0, 0, 0), id.value, [], 0, map[]);
    var payload := ExtractBytes(s, "payload");
    if payload.Some? {
      m := m.(payload := payload.value);
    }
    var number := ExtractU64(s, "seq");
    if number.Some? {
      m := m.(number := number.value);
    }
    var meta := ExtractStringMap(s, "meta");
    if meta.Some? {
      m := m.(meta := meta.value);
    }
    r := Ok(m);
  }
}
