/** The printed relay.Message (cli/json.hpp) cut at its quotes, and what the extractors read
    of quoted pieces. */
module MessageJsonPieces {
  import opened Bytes
  import opened Decimal
  import opened JsonText
  import opened JsonExtract
  import opened MessageJson
  import opened Sequences
  import Base64

  // ---------------------------------------------------------------- the text in pieces

  lemma {:induction false} RestConcat(p: seq<string>, q: seq<string>)
    ensures Rest(p + q) == Rest(p) + Rest(q)
  {
    if p == [] {
      assert p + q == q;
    } else {
      assert (p + q)[1..] == p[1..] + q;
      RestConcat(p[1..], q);
      ConcatAssociates([QUOTE] + p[0], Rest(p[1..]), Rest(q));
    }
  }

  /** A field with a value outside quotes. */
  lemma BareField(key: string, rest: string)
    ensures Rest([key, rest]) == "\"" + key + "\"" + rest
  {
    var q := "\"";
    assert q == [QUOTE];
    assert [key, rest][1..] == [rest] && [rest][1..] == [];
    assert Rest([rest]) == q + rest + "" == q + rest;
    ConcatAssociates(q + key, q, rest);
  }

  /** A field with a quoted value. */
  lemma QuotedField(key: string, value: string, rest: string)
    ensures Rest([key, ":", value, rest]) == "\"" + key + "\":\"" + value + "\"" + rest
  {
    assert [key, ":", value, rest] == [key, ":"] + [value, rest];
    RestConcat([key, ":"], [value, rest]);
    BareField(key, ":");
    BareField(value, rest);
    assert "\"" + key + "\":" + ("\"" + value + "\"" + rest) == "\"" + key + "\":\"" + value + "\"" + rest;
  }

  const EPOCH: string := "1970-01-01T00:00:00Z"

  function NumberPieces(key: string, i: int, close: string): seq<string> { [key, ":" + PrintedInt(i) + close] }

  function VersionPieces(v: Version): seq<string> {
    ["version", ":{"] + NumberPieces("major", v.major, ",") + NumberPieces("minor", v.minor, ",") +
      NumberPieces("patch", v.patch, "},")
  }

  function IdPieces(id: string): seq<string> { ["id", ":", id, ","] }

  function PayloadPieces(payload: string): seq<string> { ["payload", ":", payload, ","] }

  /** The last piece is what follows the printed timestamp. */
  function TimestampPieces(last: string): seq<string> { ["timestamp", ":", EPOCH, last] }

  function EntryPieces(pairs: seq<entry>): seq<string> {
    if pairs == [] then []
    else [pairs[0].0, ":", pairs[0].1, if |pairs| == 1 then "}}" else ","] + EntryPieces(pairs[1..])
  }

  lemma {:induction false} EntriesArePieces(pairs: seq<entry>, i: nat)
    requires i < |pairs|
    ensures EntriesText(pairs, i) + "}}" == (if i > 0 then "," else "") + Rest(EntryPieces(pairs[i..]))
    decreases |pairs| - i
  {
    var p := pairs[i];
    var comma := if i > 0 then "," else "";
    assert pairs[i..][0] == p && pairs[i..][1..] == pairs[i + 1..];
    if i + 1 == |pairs| {
      QuotedField(p.0, p.1, "}}");
      assert EntryPieces(pairs[i + 1..]) == [];
      assert EntryPieces(pairs[i..]) == [p.0, ":", p.1, "}}"];
      assert EntriesText(pairs, i + 1) == "";
      assert comma + EntryText(p) + "" + "}}" == comma + (EntryText(p) + "}}");
    } else {
      EntriesArePieces(pairs, i + 1);
      RestConcat([p.0, ":", p.1, ","], EntryPieces(pairs[i + 1..]));
      QuotedField(p.0, p.1, ",");
      ConcatAssociates(comma + EntryText(p), EntriesText(pairs, i + 1), "}}");
      ConcatAssociates(EntryText(p), ",", Rest(EntryPieces(pairs[i + 1..])));
      ConcatAssociates(comma, EntryText(p), "," + Rest(EntryPieces(pairs[i + 1..])));
    }
  }

  // ---------------------------------------------------------------- the whole text

  lemma NumberIsPieces(key: string, i: int, close: string)
    ensures NumberField(key, i, close) == Rest(NumberPieces(key, i, close))
  {
    var n := PrintedInt(i);
    BareField(key, ":" + n + close);
    assert "\"" + key + "\":" + n + close == "\"" + key + "\"" + (":" + n + close);
  }

  lemma VersionIsPieces(v: Version)
    ensures VersionText(v) == Rest(VersionPieces(v))
  {
    var p, q, r, s := ["version", ":{"], NumberPieces("major", v.major, ","), NumberPieces("minor", v.minor, ","),
                      NumberPieces("patch", v.patch, "},");
    BareField("version", ":{");
    assert "\"version\":{" == "\"" + "version" + "\"" + ":{";
    NumberIsPieces("major", v.major, ",");
    NumberIsPieces("minor", v.minor, ",");
    NumberIsPieces("patch", v.patch, "},");
    RestConcat(p + q + r, s);
    RestConcat(p + q, r);
    RestConcat(p, q);
  }

  lemma IdIsPieces(id: string)
    ensures IdText(id) == Rest(IdPieces(id))
  {
    QuotedField("id", id, ",");
  }

  lemma PayloadIsPieces(payload: string)
    ensures PayloadText(payload) == Rest(PayloadPieces(payload))
  {
    QuotedField("payload", payload, ",");
  }

  lemma TimestampLiteral()
    ensures TIMESTAMP_TEXT == "\"" + "timestamp" + "\":\"" + EPOCH + "\""
  {
    assert TIMESTAMP_TEXT == "\"timestamp\":\"" + "1970-01-01T00:00:00Z" + "\"";
  }

  lemma TimestampIsPieces(last: string)
    ensures TIMESTAMP_TEXT + last == Rest(TimestampPieces(last))
  {
    QuotedField("timestamp", EPOCH, last);
    TimestampLiteral();
  }

  /** All pieces up to the one after the printed timestamp. */
  function HeadPieces(protocol: int, version: Version, id: string, payload: string, last: string): seq<string> {
    NumberPieces("protocol", protocol, ",") + VersionPieces(version) + IdPieces(id) + PayloadPieces(payload) +
      TimestampPieces(last)
  }

  lemma HeadIsPieces(protocol: int, version: Version, id: string, payload: string, last: string)
    ensures HeadText(protocol, version, id, payload) + last == Rest(HeadPieces(protocol, version, id, payload, last))
  {
    var p, q, r := NumberPieces("protocol", protocol, ","), VersionPieces(version), IdPieces(id);
    NumberIsPieces("protocol", protocol, ",");
    VersionIsPieces(version);
    IdIsPieces(id);
    PayloadIsPieces(payload);
    TimestampIsPieces(last);
    RestConcat(p + q + r + PayloadPieces(payload), TimestampPieces(last));
    RestConcat(p + q + r, PayloadPieces(payload));
    RestConcat(p + q, r);
    RestConcat(p, q);
    ConcatAssociates(NumberField("protocol", protocol, ",") + VersionText(version) + IdText(id) + PayloadText(payload),
      TIMESTAMP_TEXT, last);
  }

  // ---------------------------------------------------------------- the tail

  /** The pieces after the first comma behind the timestamp. */
  function TailPieces(number: uint64, pairs: seq<entry>): seq<string> {
    (if number == 0 then [] else ["seq", ":" + Printed(number) + (if pairs == [] then "}" else ",")])
    + (if pairs == [] then [] else ["meta", ":{"] + EntryPieces(pairs))
  }

  function AfterTimestamp(number: uint64, pairs: seq<entry>): string {
    if number == 0 && pairs == [] then "}" else ","
  }

  lemma MetaOpens() returns (open: string)
    ensures ",\"meta\":{" == "," + open && open == Rest(["meta", ":{"])
  {
    open := "\"meta\":{";
    BareField("meta", ":{");
    assert open == "\"" + "meta" + "\"" + ":{";
  }

  lemma AllEntriesArePieces(pairs: seq<entry>)
    requires pairs != []
    ensures EntriesText(pairs, 0) + "}}" == Rest(EntryPieces(pairs))
  {
    EntriesArePieces(pairs, 0);
    assert pairs[0..] == pairs;
    assert "" + Rest(EntryPieces(pairs)) == Rest(EntryPieces(pairs));
  }

  /** With the opening and the entries named, the two closings join. */
  lemma MetaRegroups(comma: string, open: string, entries: string, meta: string, rest: string)
    requires meta == comma + open + entries + "}" && rest == entries + "}}"
    ensures meta + "}" == comma + (open + rest)
  {
  }

  lemma MetaIsPieces(pairs: seq<entry>)
    requires pairs != []
    ensures MetaText(pairs) + "}" == "," + Rest(["meta", ":{"] + EntryPieces(pairs))
  {
    var open := MetaOpens();
    AllEntriesArePieces(pairs);
    RestConcat(["meta", ":{"], EntryPieces(pairs));
    MetaRegroups(",", open, EntriesText(pairs, 0), MetaText(pairs), Rest(EntryPieces(pairs)));
  }

  lemma NumberTextIsPieces(number: uint64, close: string)
    requires number != 0
    ensures NumberText(number) + close == "," + Rest(["seq", ":" + Printed(number) + close])
  {
    var n := Printed(number);
    BareField("seq", ":" + n + close);
    assert ",\"seq\":" == "," + ("\"" + "seq" + "\"" + ":");
    assert ",\"seq\":" + n + close == "," + ("\"" + "seq" + "\"" + (":" + n + close));
  }

  lemma TailIsPieces(number: uint64, pairs: seq<entry>)
    ensures NumberText(number) + MetaText(pairs) + "}"
      == AfterTimestamp(number, pairs) + Rest(TailPieces(number, pairs))
  {
    if pairs == [] {
      if number != 0 {
        NumberTextIsPieces(number, "}");
        assert NumberText(number) + "" + "}" == NumberText(number) + "}";
        assert TailPieces(number, pairs) == ["seq", ":" + Printed(number) + "}"];
      } else {
        assert TailPieces(number, pairs) == [];
        assert "" + "" + "}" == "}" + "";
      }
    } else {
      var meta := ["meta", ":{"] + EntryPieces(pairs);
      MetaIsPieces(pairs);
      ConcatAssociates(NumberText(number), MetaText(pairs), "}");
      if number != 0 {
        var field := ["seq", ":" + Printed(number) + ","];
        NumberTextIsPieces(number, ",");
        RestConcat(field, meta);
        ConcatAssociates(NumberText(number), ",", Rest(meta));
        ConcatAssociates(",", Rest(field), Rest(meta));
      } else {
        assert [] + meta == meta;
      }
    }
  }

  function Pieces(m: Message, pairs: seq<entry>): seq<string> {
    HeadPieces(m.protocol, m.version, m.id, Base64.Encoded(m.payload), AfterTimestamp(m.number, pairs))
    + TailPieces(m.number, pairs)
  }

  /** The printed text is an opening brace and the pieces. */
  lemma TextIsPieces(m: Message, pairs: seq<entry>)
    ensures Text(m, pairs) == "{" + Rest(Pieces(m, pairs))
  {
    var head, tail := HeadText(m.protocol, m.version, m.id, Base64.Encoded(m.payload)), TailPieces(m.number, pairs);
    var last := AfterTimestamp(m.number, pairs);
    HeadIsPieces(m.protocol, m.version, m.id, Base64.Encoded(m.payload), last);
    TailIsPieces(m.number, pairs);
    RestConcat(HeadPieces(m.protocol, m.version, m.id, Base64.Encoded(m.payload), last), tail);
    ConcatAssociates(head, last, Rest(tail));
    Regroup("{", head, NumberText(m.number), MetaText(pairs), "}");
  }

  lemma Regroup(a: string, b: string, c: string, d: string, e: string)
    ensures a + b + c + d + e == a + (b + (c + d + e))
  {
  }

  // ---------------------------------------------------------------- reading quoted pieces

  lemma QuotedPiece(pieces: seq<string>, j: nat)
    requires j + 1 < |pieces| && Quoteless(pieces[j])
    ensures Quoted(Rest(pieces[j..])) == Some((pieces[j], pieces[j + 1] + Rest(pieces[j + 2..])))
    ensures Rest(pieces[j..]) != "" && Rest(pieces[j..])[0] == QUOTE
  {
    var tail := pieces[j..];
    var s := pieces[j + 1] + Rest(pieces[j + 2..]);
    assert tail[2..] == pieces[j + 2..];
    RestUnfolds(tail);
    assert Rest(tail)[1..] == pieces[j] + ([QUOTE] + s);
    UpToQuoteEnds(pieces[j], s);
  }

  /** The map that assigning the pairs one after another makes. */
  function Assigned(pairs: seq<entry>, out: map<string, string>): map<string, string> {
    if pairs == [] then out else Assigned(pairs[1..], out[pairs[0].0 := pairs[0].1])
  }

  ghost predicate QuotelessPairs(pairs: seq<entry>) {
    forall p :: p in pairs ==> Quoteless(p.0) && Quoteless(p.1)
  }

  lemma EntryFromParts(t: string, k: string, x: string, v: string, y: string)
    requires t != "" && t[0] == QUOTE && Quoted(t) == Some((k, ":" + x))
    requires x != "" && x[0] == QUOTE && Quoted(x) == Some((v, y))
    ensures EntryOf(t) == Some(Entry(k, v, SkipComma(y)))
  {
    assert (":" + x)[1..] == x;
    assert PastColon(":" + x) == Some(x);
  }

  lemma AfterEntry(close: string, rest: string)
    requires if close == "," then rest == "" || rest[0] == QUOTE else close == "}}" && rest == ""
    ensures SkipComma(close + rest) == if close == "," then rest else "}}"
  {
    assert (close + rest)[0] == close[0];
    if close == "," {
      assert (close + rest)[1..] == rest;
    } else {
      assert close + rest == "}}";
    }
  }

  lemma EntryReads(pairs: seq<entry>)
    requires pairs != [] && QuotelessPairs(pairs)
    ensures EntryOf(Rest(EntryPieces(pairs)))
      == Some(Entry(pairs[0].0, pairs[0].1, if |pairs| == 1 then "}}" else Rest(EntryPieces(pairs[1..]))))
  {
    var e := EntryPieces(pairs);
    var k, v := pairs[0].0, pairs[0].1;
    assert pairs[0] in pairs;
    assert e[0] == k && e[1] == ":" && e[2] == v && e[4..] == EntryPieces(pairs[1..]) && e[0..] == e;
    QuotedPiece(e, 0);
    QuotedPiece(e, 2);
    EntryFromParts(Rest(e), k, Rest(e[2..]), v, e[3] + Rest(e[4..]));
    AfterEntry(e[3], Rest(e[4..]));
  }

  lemma {:induction false} EntriesRead(pairs: seq<entry>, out: map<string, string>)
    requires pairs != [] && QuotelessPairs(pairs)
    ensures EntriesFrom(Rest(EntryPieces(pairs)), out) == Assigned(pairs, out)
  {
    EntryReads(pairs);
    var next := out[pairs[0].0 := pairs[0].1];
    if |pairs| == 1 {
      assert EntryOf("}}") == None;
      assert Assigned(pairs[1..], next) == next;
    } else {
      EntriesRead(pairs[1..], next);
    }
  }

  lemma {:induction false} AssignedIs(pairs: seq<entry>, out: map<string, string>)
    requires forall i, j :: 0 <= i < j < |pairs| ==> pairs[i].0 != pairs[j].0
    ensures forall p :: p in pairs ==> p.0 in Assigned(pairs, out) && Assigned(pairs, out)[p.0] == p.1
    ensures forall k :: k in Assigned(pairs, out) && k !in out ==> exists p :: p in pairs && p.0 == k
    ensures forall k :: k in out && (forall p :: p in pairs ==> p.0 != k) ==>
      k in Assigned(pairs, out) && Assigned(pairs, out)[k] == out[k]
  {
    if pairs != [] {
      var tail, next := pairs[1..], out[pairs[0].0 := pairs[0].1];
      AssignedIs(tail, next);
      assert pairs == [pairs[0]] + tail;
      assert forall p :: p in tail ==> p.0 != pairs[0].0;
    }
  }

  /** Assigning the entries of a listing rebuilds the map. */
  lemma ListingRebuilds(pairs: seq<entry>, meta: map<string, string>)
    requires Listing(pairs, meta)
    ensures Assigned(pairs, map[]) == meta
  {
    AssignedIs(pairs, map[]);
    var built := Assigned(pairs, map[]);
    forall k | k in meta ensures k in built && built[k] == meta[k] {
      assert (k, meta[k]) in pairs;
    }
  }
}
