/** The RELAY bridge (src/can.cpp): frames as relay.Messages and back, alone and through the
    JSON text. */
module FrameBridge {
  import opened Bytes
  import opened Division
  import opened Frames
  import opened Decimal
  import opened JsonText
  import opened MessageJson
  import opened MessageJsonRoundTrip

  const CAN: int32 := 1

  // ---------------------------------------------------------------- the meta keys

  datatype Tag = Ext | Fd | Rtr | Brs | Esi | Xl | Sec | Sdt | Vcid | Af

  function Key(t: Tag): string {
    match t
    case Ext => "can.ext"
    case Fd => "can.fd"
    case Rtr => "can.rtr"
    case Brs => "can.brs"
    case Esi => "can.esi"
    case Xl => "can.xl"
    case Sec => "can.sec"
    case Sdt => "can.sdt"
    case Vcid => "can.vcid"
    case Af => "can.af"
  }

  function Fingerprint(t: Tag): (char, char) {
    match t
    case Ext => ('e', 'x')
    case Fd => ('f', 'd')
    case Rtr => ('r', 't')
    case Brs => ('b', 'r')
    case Esi => ('e', 's')
    case Xl => ('x', 'l')
    case Sec => ('s', 'e')
    case Sdt => ('s', 'd')
    case Vcid => ('v', 'c')
    case Af => ('a', 'f')
  }

  lemma KeyPrint(t: Tag)
    ensures |Key(t)| >= 6 && (Key(t)[4], Key(t)[5]) == Fingerprint(t)
  {
  }

  lemma KeysDistinct(t: Tag, u: Tag)
    ensures Key(t) == Key(u) ==> t == u
  {
    KeyPrint(t);
    KeyPrint(u);
  }

  function FlagOf(f: Frame, t: Tag): bool {
    match t
    case Ext => f.ext
    case Fd => f.fd
    case Rtr => f.rtr
    case Brs => f.brs
    case Esi => f.esi
    case Xl => f.xl
    case Sec => f.sec
    case _ => false
  }

  function NumberOf(f: Frame, t: Tag): nat {
    match t
    case Sdt => f.sdt
    case Vcid => f.vcid
    case Af => f.af
    case _ => 0
  }

  predicate IsNumeric(t: Tag) { t.Sdt? || t.Vcid? || t.Af? }

  /** Four flags are always written; what else is, only when it says something. */
  predicate Says(f: Frame, t: Tag) {
    t.Ext? || t.Fd? || t.Rtr? || t.Brs? || FlagOf(f, t) || NumberOf(f, t) != 0
  }

  function Value(f: Frame, t: Tag): string {
    if IsNumeric(t) then Printed(NumberOf(f, t)) else if FlagOf(f, t) then "true" else "false"
  }

  /** The order in which to_message writes the tags. */
  function Rank(t: Tag): nat {
    match t
    case Ext => 0
    case Fd => 1
    case Rtr => 2
    case Brs => 3
    case Esi => 4
    case Xl => 5
    case Sdt => 6
    case Vcid => 7
    case Af => 8
    case Sec => 9
  }

  const TAGS: nat := 10

  /** meta holds what the frame says under the first n tags, and nothing else. */
  ghost predicate MetaOf(meta: map<string, string>, f: Frame, n: nat) {
    && (forall t: Tag :: Key(t) in meta <==> Rank(t) < n && Says(f, t))
    && (forall t: Tag :: Key(t) in meta ==> meta[Key(t)] == Value(f, t))
    && (forall k :: k in meta ==> exists t: Tag :: k == Key(t))
  }

  ghost predicate IsMessageOf(m: Message, f: Frame) {
    m.protocol == CAN && m.id == Printed(f.id) && m.payload == f.data && MetaOf(m.meta, f, TAGS)
  }

  // ---------------------------------------------------------------- to_message

  lemma PutHolds(meta: map<string, string>, f: Frame, t: Tag, u: Tag)
    requires MetaOf(meta, f, Rank(t))
    ensures var more := if Says(f, t) then meta[Key(t) := Value(f, t)] else meta;
      && (Key(u) in more <==> Rank(u) <= Rank(t) && Says(f, u))
      && (Key(u) in more ==> more[Key(u)] == Value(f, u))
  {
    assert Key(u) in meta <==> Rank(u) < Rank(t) && Says(f, u);
    if u == t {
    } else {
      KeysDistinct(t, u);
      assert Rank(u) != Rank(t);
    }
  }

  method Put(meta: map<string, string>, f: Frame, t: Tag, ghost n: nat) returns (more: map<string, string>)
    requires MetaOf(meta, f, n) && n == Rank(t)
    ensures MetaOf(more, f, n + 1)
  {
    more := if Says(f, t) then meta[Key(t) := Value(f, t)] else meta;
    forall u: Tag
      ensures Key(u) in more <==> Rank(u) < n + 1 && Says(f, u)
      ensures Key(u) in more ==> more[Key(u)] == Value(f, u)
    {
      PutHolds(meta, f, t, u);
    }
  }

  method ToMeta(f: Frame) returns (meta: map<string, string>)
    ensures MetaOf(meta, f, TAGS)
  {
    meta := map[];
    meta := Put(meta, f, Ext, 0);
    meta := Put(meta, f, Fd, 1);
    meta := Put(meta, f, Rtr, 2);
    meta := Put(meta, f, Brs, 3);
    meta := Put(meta, f, Esi, 4);
    meta := Put(meta, f, Xl, 5);
    meta := Put(meta, f, Sdt, 6);
    meta := Put(meta, f, Vcid, 7);
    meta := Put(meta, f, Af, 8);
    meta := Put(meta, f, Sec, 9);
  }

  /** The names of a frame's meta entries. */
  function NamesIn(f: Frame): set<string> {
    {"can.ext", "can.fd", "can.rtr", "can.brs"} +
    (if f.esi then {"can.esi"} else {}) + (if f.xl then {"can.xl"} else {}) +
    (if f.sdt != 0 then {"can.sdt"} else {}) + (if f.vcid != 0 then {"can.vcid"} else {}) +
    (if f.af != 0 then {"can.af"} else {}) + (if f.sec then {"can.sec"} else {})
  }

  /** The meta entries of a frame by name. */
  ghost predicate IsMetaOf(meta: map<string, string>, f: Frame) {
    && meta.Keys == NamesIn(f)
    && meta["can.ext"] == (if f.ext then "true" else "false")
    && meta["can.fd"] == (if f.fd then "true" else "false")
    && meta["can.rtr"] == (if f.rtr then "true" else "false")
    && meta["can.brs"] == (if f.brs then "true" else "false")
    && (f.esi ==> meta["can.esi"] == "true") && (f.xl ==> meta["can.xl"] == "true")
    && (f.sdt != 0 ==> meta["can.sdt"] == Printed(f.sdt)) && (f.vcid != 0 ==> meta["can.vcid"] == Printed(f.vcid))
    && (f.af != 0 ==> meta["can.af"] == Printed(f.af)) && (f.sec ==> meta["can.sec"] == "true")
  }

  lemma TagIsNamed(f: Frame, t: Tag)
    ensures Says(f, t) ==> Key(t) in NamesIn(f)
  {
  }

  lemma NameIsKey(f: Frame, k: string)
    requires k in NamesIn(f)
    ensures exists t: Tag :: k == Key(t) && Says(f, t)
  {
    if k == "can.ext" { assert k == Key(Ext); }
    else if k == "can.fd" { assert k == Key(Fd); }
    else if k == "can.rtr" { assert k == Key(Rtr); }
    else if k == "can.brs" { assert k == Key(Brs); }
    else if f.esi && k == "can.esi" { assert k == Key(Esi); }
    else if f.xl && k == "can.xl" { assert k == Key(Xl); }
    else if f.sdt != 0 && k == "can.sdt" { assert k == Key(Sdt); }
    else if f.vcid != 0 && k == "can.vcid" { assert k == Key(Vcid); }
    else if f.af != 0 && k == "can.af" { assert k == Key(Af); }
    else { assert k == Key(Sec); }
  }

  /** The key of every tag that says something is a name of the list, and the other way round. */
  lemma NamesOf(meta: map<string, string>, f: Frame, k: string)
    requires MetaOf(meta, f, TAGS)
    ensures k in meta <==> k in NamesIn(f)
  {
    if k in meta {
      var t: Tag :| k == Key(t);
      KeyIsTold(meta, f, t);
      TagIsNamed(f, t);
    }
    if k in NamesIn(f) {
      NameIsKey(f, k);
      var t: Tag :| k == Key(t) && Says(f, t);
      KeyIsTold(meta, f, t);
    }
  }

  lemma KeyIsTold(meta: map<string, string>, f: Frame, t: Tag)
    requires MetaOf(meta, f, TAGS)
    ensures Key(t) in meta <==> Says(f, t)
    ensures Says(f, t) ==> meta[Key(t)] == Value(f, t)
  {
  }

  lemma ValuesByName(meta: map<string, string>, f: Frame)
    requires MetaOf(meta, f, TAGS)
    ensures "can.ext" in meta && meta["can.ext"] == if f.ext then "true" else "false"
    ensures "can.fd" in meta && meta["can.fd"] == if f.fd then "true" else "false"
    ensures "can.rtr" in meta && meta["can.rtr"] == if f.rtr then "true" else "false"
    ensures "can.brs" in meta && meta["can.brs"] == if f.brs then "true" else "false"
  {
    KeyIsTold(meta, f, Ext);
    KeyIsTold(meta, f, Fd);
    KeyIsTold(meta, f, Rtr);
    KeyIsTold(meta, f, Brs);
  }

  lemma MoreValuesByName(meta: map<string, string>, f: Frame)
    requires MetaOf(meta, f, TAGS)
    ensures f.esi ==> "can.esi" in meta && meta["can.esi"] == "true"
    ensures f.xl ==> "can.xl" in meta && meta["can.xl"] == "true"
    ensures f.sec ==> "can.sec" in meta && meta["can.sec"] == "true"
    ensures f.sdt != 0 ==> "can.sdt" in meta && meta["can.sdt"] == Printed(f.sdt)
    ensures f.vcid != 0 ==> "can.vcid" in meta && meta["can.vcid"] == Printed(f.vcid)
    ensures f.af != 0 ==> "can.af" in meta && meta["can.af"] == Printed(f.af)
  {
    KeyIsTold(meta, f, Esi);
    KeyIsTold(meta, f, Xl);
    KeyIsTold(meta, f, Sec);
    KeyIsTold(meta, f, Sdt);
    KeyIsTold(meta, f, Vcid);
    KeyIsTold(meta, f, Af);
  }

  lemma MetaByName(meta: map<string, string>, f: Frame)
    requires MetaOf(meta, f, TAGS)
    ensures IsMetaOf(meta, f)
  {
    ValuesByName(meta, f);
    MoreValuesByName(meta, f);
    forall k
      ensures k in meta <==> k in NamesIn(f)
    {
      NamesOf(meta, f, k);
    }
  }

  method ToMessage(f: Frame) returns (m: Message)
    ensures IsMessageOf(m, f) && m.version == Version(0, 0, 0) && m.number == 0
    ensures m.protocol == 1 && m.id == Printed(f.id) && m.payload == f.data && IsMetaOf(m.meta, f)
  {
    var meta := ToMeta(f);
    MetaByName(meta, f);
    m := Message(CAN, Version(0, 0, 0), Printed(f.id), f.data, 0, meta);
  }

  // ---------------------------------------------------------------- from_message

  /** Why from_message throws. */
  datatype BridgeError = BadId | BadSdt | BadVcid | BadAf | BadFrame

  predicate IsSet(meta: map<string, string>, t: Tag) { Key(t) in meta && meta[Key(t)] == "true" }

  /** A number in meta, cut to the width of its field; zero if it is not there, None where
      stoull throws. */
  function Numeral(meta: map<string, string>, t: Tag, width: nat): (v: Option<nat>)
    requires width > 0
    ensures v.Some? ==> v.value < width
  {
    if Key(t) !in meta then Some(0)
    else
      match Stoull(meta[Key(t)])
      case None => None
      case Some(n) => Some(n % width)
  }

  const BYTE_RANGE: nat := 0x100
  const WORD_RANGE: nat := 0x1_0000_0000

  /** The frame with these fields, or the first complaint about them. */
  function Assembled(
    id: Option<nat>, ext: bool, rtr: bool, fd: bool, brs: bool, data: seq<byte>, esi: bool, xl: bool,
    sdt: Option<nat>, vcid: Option<nat>, af: Option<nat>, sec: bool): Result<Frame, BridgeError>
    requires sdt.Some? ==> sdt.value < BYTE_RANGE
    requires vcid.Some? ==> vcid.value < BYTE_RANGE
    requires af.Some? ==> af.value < WORD_RANGE
  {
    if id.None? || id.value > MAX_EXT_ID then Err(BadId)
    else if sdt.None? then Err(BadSdt)
    else if vcid.None? then Err(BadVcid)
    else if af.None? then Err(BadAf)
    else
      var f := Frame(id.value, ext, rtr, fd, brs, data, esi, xl, sdt.value, vcid.value, af.value, sec);
      if ValidFrame(f) then Ok(f) else Err(BadFrame)
  }

  function FrameOf(m: Message): Result<Frame, BridgeError> {
    Assembled(Stoull(m.id), IsSet(m.meta, Ext), IsSet(m.meta, Rtr), IsSet(m.meta, Fd), IsSet(m.meta, Brs), m.payload,
              IsSet(m.meta, Esi), IsSet(m.meta, Xl),
              Numeral(m.meta, Sdt, BYTE_RANGE), Numeral(m.meta, Vcid, BYTE_RANGE),
              Numeral(m.meta, Af, WORD_RANGE), IsSet(m.meta, Sec))
  }

  /** The frame's id, data and flags; the flags it does not find set keep their default. */
  method ReadFlags(id: uint32, m: Message) returns (f: Frame)
    ensures f == Frame(id, IsSet(m.meta, Ext), IsSet(m.meta, Rtr), IsSet(m.meta, Fd), IsSet(m.meta, Brs), m.payload,
                       IsSet(m.meta, Esi), IsSet(m.meta, Xl), 0, 0, 0, false)
  {
    f := Frame(id, false, false, false, false, m.payload, false, false, 0, 0, 0, false);
    if IsSet(m.meta, Ext) { f := f.(ext := true); }
    if IsSet(m.meta, Fd) { f := f.(fd := true); }
    if IsSet(m.meta, Rtr) { f := f.(rtr := true); }
    if IsSet(m.meta, Brs) { f := f.(brs := true); }
    if IsSet(m.meta, Esi) { f := f.(esi := true); }
    if IsSet(m.meta, Xl) { f := f.(xl := true); }
  }

  /** The numbers of the frame, in the order they are looked for, and the rest of it. */
  method ReadNumbers(f0: Frame, sdt: Option<nat>, vcid: Option<nat>, af: Option<nat>, sec: bool)
    returns (r: Result<Frame, BridgeError>)
    requires f0.id <= MAX_EXT_ID
    requires sdt.Some? ==> sdt.value < BYTE_RANGE
    requires vcid.Some? ==> vcid.value < BYTE_RANGE
    requires af.Some? ==> af.value < WORD_RANGE
    requires !f0.sec
    ensures r == Assembled(Some(f0.id), f0.ext, f0.rtr, f0.fd, f0.brs, f0.data, f0.esi, f0.xl, sdt, vcid, af, sec)
  {
    var f := f0;
    if sdt.None? { return Err(BadSdt); }
    f := f.(sdt := sdt.value);
    if vcid.None? { return Err(BadVcid); }
    f := f.(vcid := vcid.value);
    if af.None? { return Err(BadAf); }
    f := f.(af := af.value);
    if sec { f := f.(sec := true); }
    r := if ValidFrame(f) then Ok(f) else Err(BadFrame);
  }

  ghost predicate HasTrue(meta: map<string, string>, name: string) { name in meta && meta[name] == "true" }

  /** An entry that is there and does not read as a number. */
  ghost predicate IsBad(meta: map<string, string>, name: string) { name in meta && Stoull(meta[name]).None? }

  /** The number an entry gives a field of so many values. */
  ghost predicate Gives(meta: map<string, string>, name: string, values: nat, field: nat)
    requires values > 0
  {
    if name in meta then Stoull(meta[name]).Some? && field == Stoull(meta[name]).value % values else field == 0
  }

  ghost predicate HasBadId(m: Message) { Stoull(m.id).None? || Stoull(m.id).value > 0x1FFF_FFFF }

  /** Every field of the frame was in the message, under its name. */
  ghost predicate IsFrameIn(f: Frame, m: Message) {
    && Stoull(m.id) == Some(f.id) && f.data == m.payload
    && (f.ext <==> HasTrue(m.meta, "can.ext")) && (f.fd <==> HasTrue(m.meta, "can.fd"))
    && (f.rtr <==> HasTrue(m.meta, "can.rtr")) && (f.brs <==> HasTrue(m.meta, "can.brs"))
    && (f.esi <==> HasTrue(m.meta, "can.esi")) && (f.xl <==> HasTrue(m.meta, "can.xl"))
    && (f.sec <==> HasTrue(m.meta, "can.sec"))
    && Gives(m.meta, "can.sdt", 0x100, f.sdt) && Gives(m.meta, "can.vcid", 0x100, f.vcid)
    && Gives(m.meta, "can.af", 0x1_0000_0000, f.af)
  }

  /** Each complaint is made exactly where it applies and none before it does. */
  ghost predicate ComplainsInOrder(r: Result<Frame, BridgeError>, id: bool, sdt: bool, vcid: bool, af: bool) {
    && (r == Err(BadId) <==> id)
    && (r == Err(BadSdt) <==> !id && sdt)
    && (r == Err(BadVcid) <==> !id && !sdt && vcid)
    && (r == Err(BadAf) <==> !id && !sdt && !vcid && af)
  }

  /** What from_message makes of a message: the first of its complaints that applies, and
      otherwise the frame, which breaks no rule. */
  ghost predicate BridgeOutcome(m: Message, r: Result<Frame, BridgeError>) {
    && ComplainsInOrder(r, HasBadId(m), IsBad(m.meta, "can.sdt"), IsBad(m.meta, "can.vcid"), IsBad(m.meta, "can.af"))
    && (r == Err(BadFrame) ==> exists f :: IsFrameIn(f, m) && !ValidFrame(f))
    && (r.Ok? ==> IsFrameIn(r.value, m) && ValidFrame(r.value))
  }

  lemma FlagByName(meta: map<string, string>, t: Tag, name: string)
    requires Key(t) == name
    ensures IsSet(meta, t) <==> HasTrue(meta, name)
  {
  }

  lemma NumeralByName(meta: map<string, string>, t: Tag, name: string, width: nat)
    requires Key(t) == name && width > 0
    ensures Numeral(meta, t, width).None? <==> IsBad(meta, name)
    ensures Numeral(meta, t, width).Some? ==> Gives(meta, name, width, Numeral(meta, t, width).value)
  {
  }

  lemma FlagsByName(meta: map<string, string>)
    ensures IsSet(meta, Ext) <==> HasTrue(meta, "can.ext")
    ensures IsSet(meta, Fd) <==> HasTrue(meta, "can.fd")
    ensures IsSet(meta, Rtr) <==> HasTrue(meta, "can.rtr")
    ensures IsSet(meta, Brs) <==> HasTrue(meta, "can.brs")
    ensures IsSet(meta, Esi) <==> HasTrue(meta, "can.esi")
    ensures IsSet(meta, Xl) <==> HasTrue(meta, "can.xl")
    ensures IsSet(meta, Sec) <==> HasTrue(meta, "can.sec")
  {
    FlagByName(meta, Ext, "can.ext");
    FlagByName(meta, Fd, "can.fd");
    FlagByName(meta, Rtr, "can.rtr");
    FlagByName(meta, Brs, "can.brs");
    FlagByName(meta, Esi, "can.esi");
    FlagByName(meta, Xl, "can.xl");
    FlagByName(meta, Sec, "can.sec");
  }

  /** The frame with the fields the tags give it, whatever the missing numbers. */
  lemma FrameInMessage(m: Message, f: Frame)
    requires Stoull(m.id) == Some(f.id) && f.data == m.payload
    requires f.ext == IsSet(m.meta, Ext) && f.fd == IsSet(m.meta, Fd) && f.rtr == IsSet(m.meta, Rtr)
    requires f.brs == IsSet(m.meta, Brs) && f.esi == IsSet(m.meta, Esi) && f.xl == IsSet(m.meta, Xl)
    requires f.sec == IsSet(m.meta, Sec) && Numeral(m.meta, Sdt, BYTE_RANGE) == Some(f.sdt)
    requires Numeral(m.meta, Vcid, BYTE_RANGE) == Some(f.vcid) && Numeral(m.meta, Af, WORD_RANGE) == Some(f.af)
    ensures IsFrameIn(f, m)
  {
    FlagsByName(m.meta);
    NumeralByName(m.meta, Sdt, "can.sdt", BYTE_RANGE);
    NumeralByName(m.meta, Vcid, "can.vcid", BYTE_RANGE);
    NumeralByName(m.meta, Af, "can.af", WORD_RANGE);
  }

  lemma ComplaintsInOrder(m: Message)
    ensures ComplainsInOrder(FrameOf(m), HasBadId(m), Numeral(m.meta, Sdt, BYTE_RANGE).None?,
        Numeral(m.meta, Vcid, BYTE_RANGE).None?, Numeral(m.meta, Af, WORD_RANGE).None?)
  {
  }

  lemma AssembledFrame(f: Frame, m: Message)
    requires Stoull(m.id) == Some(f.id) && f.id <= MAX_EXT_ID && f.data == m.payload
    requires f.ext == IsSet(m.meta, Ext) && f.fd == IsSet(m.meta, Fd) && f.rtr == IsSet(m.meta, Rtr)
    requires f.brs == IsSet(m.meta, Brs) && f.esi == IsSet(m.meta, Esi) && f.xl == IsSet(m.meta, Xl)
    requires f.sec == IsSet(m.meta, Sec) && Numeral(m.meta, Sdt, BYTE_RANGE) == Some(f.sdt)
    requires Numeral(m.meta, Vcid, BYTE_RANGE) == Some(f.vcid) && Numeral(m.meta, Af, WORD_RANGE) == Some(f.af)
    ensures FrameOf(m) == if ValidFrame(f) then Ok(f) else Err(BadFrame)
  {
  }

  lemma FrameOrBadFrame(m: Message, sdt: byte, vcid: byte, af: uint32) returns (f: Frame)
    requires !HasBadId(m) && Numeral(m.meta, Sdt, BYTE_RANGE) == Some(sdt)
    requires Numeral(m.meta, Vcid, BYTE_RANGE) == Some(vcid) && Numeral(m.meta, Af, WORD_RANGE) == Some(af)
    ensures IsFrameIn(f, m) && FrameOf(m) == if ValidFrame(f) then Ok(f) else Err(BadFrame)
  {
    f := Frame(Stoull(m.id).value, IsSet(m.meta, Ext), IsSet(m.meta, Rtr), IsSet(m.meta, Fd), IsSet(m.meta, Brs),
               m.payload, IsSet(m.meta, Esi), IsSet(m.meta, Xl), sdt, vcid, af, IsSet(m.meta, Sec));
    FrameInMessage(m, f);
    AssembledFrame(f, m);
  }

  lemma FrameOfOutcome(m: Message)
    ensures BridgeOutcome(m, FrameOf(m))
  {
    ComplaintsInOrder(m);
    NumeralByName(m.meta, Sdt, "can.sdt", BYTE_RANGE);
    NumeralByName(m.meta, Vcid, "can.vcid", BYTE_RANGE);
    NumeralByName(m.meta, Af, "can.af", WORD_RANGE);
    if !HasBadId(m) && Numeral(m.meta, Sdt, BYTE_RANGE).Some? && Numeral(m.meta, Vcid, BYTE_RANGE).Some? &&
      Numeral(m.meta, Af, WORD_RANGE).Some?
    {
      var f := FrameOrBadFrame(m, Numeral(m.meta, Sdt, BYTE_RANGE).value, Numeral(m.meta, Vcid, BYTE_RANGE).value,
                               Numeral(m.meta, Af, WORD_RANGE).value);
    }
  }

  method FromMessage(m: Message) returns (r: Result<Frame, BridgeError>)
    ensures r == FrameOf(m)
    ensures BridgeOutcome(m, r)
  {
    FrameOfOutcome(m);
    var id := Stoull(m.id);
    if id.None? || id.value > MAX_EXT_ID {
      return Err(BadId);
    }
    var f := ReadFlags(id.value, m);
    r := ReadNumbers(f, Numeral(m.meta, Sdt, BYTE_RANGE), Numeral(m.meta, Vcid, BYTE_RANGE),
                     Numeral(m.meta, Af, WORD_RANGE), IsSet(m.meta, Sec));
  }

  // ---------------------------------------------------------------- the round trip

  lemma FlagReads(meta: map<string, string>, f: Frame, t: Tag)
    requires MetaOf(meta, f, TAGS) && !IsNumeric(t)
    ensures IsSet(meta, t) == FlagOf(f, t)
  {
    assert Key(t) in meta <==> Says(f, t);
  }

  lemma NumeralReads(meta: map<string, string>, f: Frame, t: Tag, width: nat)
    requires MetaOf(meta, f, TAGS) && IsNumeric(t) && NumberOf(f, t) < width <= ULL
    ensures Numeral(meta, t, width) == Some(NumberOf(f, t))
  {
    assert Key(t) in meta <==> NumberOf(f, t) != 0;
    PrintedStoull(NumberOf(f, t));
    SmallModulus(NumberOf(f, t), width);
  }

  /** The fields of a frame assemble to it exactly when it is valid. */
  lemma FieldsAssemble(f: Frame)
    ensures var r := Assembled(Some(f.id), f.ext, f.rtr, f.fd, f.brs, f.data, f.esi, f.xl,
                            Some(f.sdt), Some(f.vcid), Some(f.af), f.sec);
      (r == Ok(f) <==> ValidFrame(f)) && (!ValidFrame(f) ==> r.Err?)
  {
  }

  /** Every field is read back from where ToMessage put it. */
  lemma FieldsRead(m: Message, f: Frame)
    requires IsMessageOf(m, f)
    ensures FrameOf(m) == Assembled(Some(f.id), f.ext, f.rtr, f.fd, f.brs, f.data, f.esi, f.xl,
                                    Some(f.sdt), Some(f.vcid), Some(f.af), f.sec)
  {
    PrintedStoull(f.id);
    FlagsRead(m.meta, f);
    NumeralReads(m.meta, f, Sdt, BYTE_RANGE);
    NumeralReads(m.meta, f, Vcid, BYTE_RANGE);
    NumeralReads(m.meta, f, Af, WORD_RANGE);
  }

  lemma FlagsRead(meta: map<string, string>, f: Frame)
    requires MetaOf(meta, f, TAGS)
    ensures IsSet(meta, Ext) == f.ext && IsSet(meta, Rtr) == f.rtr && IsSet(meta, Fd) == f.fd
    ensures IsSet(meta, Brs) == f.brs && IsSet(meta, Esi) == f.esi && IsSet(meta, Xl) == f.xl
    ensures IsSet(meta, Sec) == f.sec
  {
    FlagReads(meta, f, Ext);
    FlagReads(meta, f, Rtr);
    FlagReads(meta, f, Fd);
    FlagReads(meta, f, Brs);
    FlagReads(meta, f, Esi);
    FlagReads(meta, f, Xl);
    FlagReads(meta, f, Sec);
  }

  /** A frame's message comes back as the frame, all twelve fields of it, exactly when
      validate_frame accepts the frame; any other is refused. */
  lemma FrameComesBackExactly(m: Message, f: Frame)
    requires IsMessageOf(m, f)
    ensures FrameOf(m) == Ok(f) <==> ValidFrame(f)
    ensures !ValidFrame(f) ==> FrameOf(m).Err?
  {
    FieldsRead(m, f);
    FieldsAssemble(f);
  }

  /** Whatever message it is made from, a frame from the bridge is valid and survives the
      bridge from then on. */
  lemma FromMessageIsStable(m: Message, again: Message)
    requires FrameOf(m).Ok? && IsMessageOf(again, FrameOf(m).value)
    ensures ValidFrame(FrameOf(m).value) && FrameOf(again) == FrameOf(m)
  {
    FrameComesBackExactly(again, FrameOf(m).value);
  }

  lemma KeysQuoteless(t: Tag)
    ensures Quoteless(Key(t))
  {
  }

  lemma ValuesQuoteless(f: Frame, t: Tag)
    ensures Quoteless(Value(f, t))
  {
    PrintedDigits(NumberOf(f, t));
  }

  /** A frame printed as JSON, under whatever sequence number, and parsed again is the frame. */
  lemma FrameThroughJson(m: Message, f: Frame, number: uint64, pairs: seq<entry>)
    requires ValidFrame(f) && IsMessageOf(m, f) && Listing(pairs, m.meta)
    ensures var r := Parsed(Text(m.(number := number), pairs));
      r.Ok? && FrameOf(r.value) == Ok(f) && r.value.number == number
  {
    forall k | k in m.meta ensures Quoteless(k) && Quoteless(m.meta[k]) {
      var t: Tag :| k == Key(t);
      KeysQuoteless(t);
      ValuesQuoteless(f, t);
    }
    PrintedDigits(f.id);
    var sent := m.(number := number);
    CleanComesBack(sent, pairs);
    var back := Parsed(Text(sent, pairs)).value;
    assert IsMessageOf(back, f);
    FrameComesBackExactly(back, f);
  }
}
