/** What the session table makes of one sender's packets, whatever else is on the bus,
    and what every message it offers is made of. */
module BamReassembly {
  import opened Bytes
  import opened Division
  import opened J1939
  import opened Bam

  datatype Event = Event(now: int, cf: CanFrame)

  /** What the receiving thread offers the subscriber at each event. */
  function Offers(t: Table, filter: seq<uint32>, events: seq<Event>): (o: seq<Option<Message>>)
    ensures |o| == |events|
    decreases |events|
  {
    if events == [] then []
    else
      var (t', offer) := Turn(t, filter, events[0].now, events[0].cf);
      [offer] + Offers(t', filter, events[1..])
  }

  /** A frame that has no say in the sessions of source s. */
  predicate Foreign(cf: CanFrame, s: byte) {
    !cf.ext || DecodeId(cf.id).src != s || (DecodeId(cf.id).pgn != PGN_TP_CM && DecodeId(cf.id).pgn != PGN_TP_DT)
  }

  predicate IsSegment(m: Message, s: byte, cf: CanFrame, q: nat) {
    1 <= q <= Packets(|m.data|) <= 255 && cf == Segment(m, s, q)
  }

  /** A transport frame of s itself that changes no session announced for m: a control
      frame that opens nothing, or a packet too short or of a number m does not have. */
  predicate Harmless(m: Message, s: byte, cf: CanFrame) {
    var id := DecodeId(cf.id);
    && cf.ext && id.src == s
    && ((id.pgn == PGN_TP_CM && !Opens(cf.data))
        || (id.pgn == PGN_TP_DT && (|cf.data| < 8 || cf.data[0] == 0 || cf.data[0] as int > Packets(|m.data|))))
  }

  /** A frame of the message's transfer, or one that has no say in it: all frames but
      announcements of s and packets of s with a number and data of their own. */
  predicate Admissible(m: Message, s: byte, cf: CanFrame) {
    Foreign(cf, s) || Harmless(m, s, cf) || (|cf.data| >= 1 && IsSegment(m, s, cf, cf.data[0]))
  }

  /** The numbers 1 to np. */
  function UpTo(np: nat): (s: set<nat>)
    ensures |s| == np && forall q :: q in s <==> 1 <= q <= np
  {
    if np == 0 then {} else UpTo(np - 1) + {np}
  }

  function AllSegments(m: Message): set<nat> { UpTo(Packets(|m.data|)) }

  /** The session of m once exactly the segments got are in. */
  ghost predicate Building(sess: Session, m: Message, s: byte, got: set<nat>, last: int) {
    var n, np := |m.data|, Packets(|m.data|);
    && got < AllSegments(m)
    && sess.totalSize == n && sess.numPackets == np
    && sess.pgn == m.pgn % 0x100_0000 && sess.priority == m.priority % 8 && sess.src == s
    && sess.lastSeen == last && sess.received == |got|
    && |sess.seen| == np && (forall k :: 0 <= k < np ==> (sess.seen[k] <==> k + 1 in got))
    && BufferAt(sess.buf, m.data, got)
  }

  /** The message as the subscriber sees it. */
  function Arrived(m: Message, s: byte): Message {
    Message(m.priority % 8, m.pgn % 0x100_0000, s, BROADCAST, m.data)
  }

  // ---------------------------------------------------------------- single events

  /** Both transport groups survive their identifiers. */
  lemma DataGroup(priority: byte, s: byte)
    ensures DecodeId(AddressedId(priority, PGN_TP_DT, s, BROADCAST)) == DecodedId(priority % 8, PGN_TP_DT, s)
  {
    DecodesAddressed(priority, PGN_TP_DT, s, BROADCAST);
  }

  lemma ControlGroup(priority: byte, s: byte)
    ensures DecodeId(AddressedId(priority, PGN_TP_CM, s, BROADCAST)) == DecodedId(priority % 8, PGN_TP_CM, s)
  {
    DecodesAddressed(priority, PGN_TP_CM, s, BROADCAST);
  }

  lemma SegmentId(m: Message, s: byte, q: nat)
    requires 1 <= q <= 255
    ensures DecodeId(Segment(m, s, q).id) == DecodedId(m.priority % 8, PGN_TP_DT, s)
    ensures !Foreign(Segment(m, s, q), s) && |Segment(m, s, q).data| == 8 && Segment(m, s, q).data[0] == q
  {
    DataGroup(m.priority, s);
  }

  lemma ProperSubsetSmaller<T>(a: set<T>, b: set<T>)
    requires a <= b
    ensures |a| <= |b| && (|a| == |b| <==> a == b)
  {
    assert b == a + (b - a) && |b| == |a| + |b - a|;
  }

  /** The buffer once exactly the segments got are in place. */
  predicate BufferAt(buf: seq<byte>, data: seq<byte>, got: set<nat>) {
    |buf| == |data| && forall i :: 0 <= i < |buf| ==> buf[i] == if i / 7 + 1 in got then data[i] else 0
  }

  lemma OverlaySegment(buf: seq<byte>, m: Message, s: byte, got: set<nat>, q: nat)
    requires 1 <= q <= 255 && BufferAt(buf, m.data, got)
    ensures |Segment(m, s, q).data| == 8
    ensures BufferAt(Overlay(buf, q, Segment(m, s, q).data), m.data, got + {q})
  {
    var pkt := Segment(m, s, q).data;
    var buf' := Overlay(buf, q, pkt);
    forall i | 0 <= i < |m.data|
      ensures buf'[i] == if i / 7 + 1 in got + {q} then m.data[i] else 0
    {
      if i / 7 + 1 == q {
        var k := i - 7 * (q - 1);
        assert pkt[k + 1] == Chunk(m.data, 7 * (q - 1))[k];
      }
    }
  }

  /** With all segments in place the buffer is the data. */
  lemma FullBuffer(buf: seq<byte>, m: Message)
    requires BufferAt(buf, m.data, AllSegments(m))
    ensures buf == m.data
  {
    forall i | 0 <= i < |buf| ensures buf[i] == m.data[i] {
      SegmentOfOctet(|m.data|, i);
    }
  }

  lemma SegmentOfOctet(n: nat, i: nat)
    requires i < n
    ensures 1 <= i / 7 + 1 <= Packets(n)
  {
  }

  lemma SegmentCounts(m: Message, got: set<nat>, q: nat)
    requires got < AllSegments(m) && 1 <= q <= Packets(|m.data|) && q !in got
    ensures |got + {q}| == |got| + 1 && got + {q} <= AllSegments(m)
    ensures |got| + 1 == Packets(|m.data|) <==> got + {q} == AllSegments(m)
    ensures |got| + 1 <= Packets(|m.data|)
  {
    ProperSubsetSmaller(got + {q}, AllSegments(m));
  }

  lemma SegmentIsNew(sess: Session, m: Message, s: byte, got: set<nat>, last: int, q: nat)
    requires MIN_DATA <= |m.data| <= MAX_DATA && Building(sess, m, s, got, last)
    requires 1 <= q <= Packets(|m.data|) <= 255 && q !in got
    ensures Fills(sess, Segment(m, s, q).data) && Segment(m, s, q).data[0] == q
  {
  }

  /** A new segment takes its place in the session; the last one completes it. */
  lemma SegmentFills(sess: Session, m: Message, s: byte, got: set<nat>, last: int, now: int, q: nat)
    requires MIN_DATA <= |m.data| <= MAX_DATA && Building(sess, m, s, got, last)
    requires 1 <= q <= Packets(|m.data|) && q !in got
    ensures Fills(sess, Segment(m, s, q).data)
    ensures var sess' := WithSegment(sess, Segment(m, s, q).data, now);
      if got + {q} == AllSegments(m)
      then sess'.received == sess'.numPackets && Offer(sess') == Arrived(m, s)
      else sess'.received < sess'.numPackets && Building(sess', m, s, got + {q}, now)
  {
    SizeOctets(|m.data|);
    SegmentIsNew(sess, m, s, got, last, q);
    OverlaySegment(sess.buf, m, s, got, q);
    SegmentCounts(m, got, q);
    if got + {q} == AllSegments(m) {
      FullBuffer(Overlay(sess.buf, q, Segment(m, s, q).data), m);
    }
  }

  lemma ForeignTurn(t: Table, filter: seq<uint32>, e: Event, s: byte)
    requires TableOk(t) && Foreign(e.cf, s)
    ensures var (t', offer) := Turn(t, filter, e.now, e.cf);
      && (s in t' <==> s in t && !(e.cf.ext && Expired(t[s], e.now)))
      && (s in t' ==> t'[s] == t[s])
      && (offer.Some? ==> offer.value.src != s)
  {
  }

  lemma HarmlessTurn(t: Table, filter: seq<uint32>, e: Event, m: Message, s: byte)
    requires TableOk(t) && Harmless(m, s, e.cf) && (s in t ==> t[s].numPackets == Packets(|m.data|))
    ensures var (t', offer) := Turn(t, filter, e.now, e.cf);
      && (s in t' <==> s in t && !Expired(t[s], e.now))
      && (s in t' ==> t'[s] == t[s])
      && offer.None?
  {
  }

  lemma SegmentTurn(t: Table, filter: seq<uint32>, now: int, m: Message, s: byte, q: nat)
    requires TableOk(t) && 1 <= q <= 255
    ensures var (t', offer) := Turn(t, filter, now, Segment(m, s, q));
      var data := Segment(m, s, q).data;
      if s !in t || Expired(t[s], now) then s !in t' && offer.None?
      else if !Fills(t[s], data) then s in t' && t'[s] == t[s] && offer.None?
      else
        var sess := WithSegment(t[s], data, now);
        if sess.received == sess.numPackets
        then s !in t' && offer == if MatchesPgns(sess.pgn, filter) then Some(Offer(sess)) else None
        else s in t' && t'[s] == sess && offer.None?
  {
    SegmentId(m, s, q);
  }

  lemma PgnOctets(pgn: uint32)
    ensures PgnOf(pgn % 256, pgn / 0x100 % 256, pgn / 0x1_0000 % 256) == pgn % 0x100_0000
  {
    var a, b := pgn / 0x100, pgn / 0x1_0000;
    assert a == 0x100 * b + a % 0x100;
    assert b == 0x100 * (pgn / 0x100_0000) + b % 0x100;
  }

  lemma SizeOctets(n: nat)
    requires MIN_DATA <= n <= MAX_DATA
    ensures SizeOf(n % 256, n / 256 % 256) == n && 1 <= Packets(n) <= 255 && Packets(n) % 256 == Packets(n)
  {
    SmallModulus(n / 256, 256);
    SmallModulus(Packets(n), 256);
  }

  lemma AnnouncementDataFields(lo: byte, hi: byte, packets: byte, p0: byte, p1: byte, p2: byte)
    requires MIN_DATA <= SizeOf(lo, hi) <= MAX_DATA && packets > 0
    ensures var data := AnnouncementData(lo, hi, packets, p0, p1, p2);
      && Opens(data) && AnnouncedSize(data) == SizeOf(lo, hi) && data[3] == packets
      && PgnOf(data[5], data[6], data[7]) == PgnOf(p0, p1, p2)
  {
  }

  /** An announcement names the size, the packet count and the group of its message. */
  lemma AnnouncementFields(m: Message, s: byte)
    requires MIN_DATA <= |m.data| <= MAX_DATA
    ensures var data := Announcement(m, s).data;
      && Opens(data) && AnnouncedSize(data) == |m.data| && data[3] == Packets(|m.data|)
      && PgnOf(data[5], data[6], data[7]) == m.pgn % 0x100_0000
  {
    PgnOctets(m.pgn);
    var n := |m.data|;
    SizeOctets(n);
    AnnouncementDataFields(n % 256, n / 256 % 256, Packets(n) % 256, m.pgn % 256, m.pgn / 0x100 % 256,
      m.pgn / 0x1_0000 % 256);
  }

  lemma AnnouncementOpens(now: int, m: Message, s: byte)
    requires MIN_DATA <= |m.data| <= MAX_DATA
    ensures Opens(Announcement(m, s).data)
    ensures Building(NewSession(DecodedId(m.priority % 8, PGN_TP_CM, s), Announcement(m, s).data, now), m, s, {}, now)
  {
    AnnouncementFields(m, s);
    assert 1 in AllSegments(m);
  }

  /** Whatever the table held, an announcement opens the session. */
  lemma AnnouncementTurn(t: Table, filter: seq<uint32>, now: int, m: Message, s: byte)
    requires TableOk(t) && MIN_DATA <= |m.data| <= MAX_DATA
    ensures var (t', offer) := Turn(t, filter, now, Announcement(m, s));
      && offer.None? && TableOk(t') && s in t' && Building(t'[s], m, s, {}, now)
  {
    ControlGroup(m.priority, s);
    AnnouncementOpens(now, m, s);
    TurnKeepsTable(t, filter, now, Announcement(m, s));
    CapNeverRejects(Swept(t, now), s);
  }

  // ---------------------------------------------------------------- following one session

  /** Where the session of m stands: not in the table, or with segments got in, the
      last new one at time last. */
  datatype Status = Gone | Open(got: set<nat>, last: int)

  ghost predicate Tracks(t: Table, m: Message, s: byte, st: Status) {
    match st
    case Gone => s !in t
    case Open(got, last) => s in t && Building(t[s], m, s, got, last)
  }

  /** The number of a segment of m that is not in yet. */
  function NewSegment(m: Message, s: byte, got: set<nat>, cf: CanFrame): Option<nat> {
    if |cf.data| >= 1 && IsSegment(m, s, cf, cf.data[0]) && cf.data[0] !in got then Some(cf.data[0]) else None
  }

  function Stale(st: Status, e: Event): bool
    requires st.Open?
  {
    e.cf.ext && e.now - st.last > SESSION_TIMEOUT
  }

  /** Whether event e brings the last missing segment in time. */
  predicate Finishes(m: Message, s: byte, st: Status, e: Event) {
    && st.Open? && !Stale(st, e)
    && NewSegment(m, s, st.got, e.cf).Some?
    && st.got + {NewSegment(m, s, st.got, e.cf).value} == AllSegments(m)
  }

  function After(m: Message, s: byte, st: Status, e: Event): Status {
    if st.Gone? || Stale(st, e) || Finishes(m, s, st, e) then Gone
    else match NewSegment(m, s, st.got, e.cf)
      case None => st
      case Some(q) => Open(st.got + {q}, e.now)
  }

  predicate FromSource(o: Option<Message>, s: byte) { o.Some? && o.value.src == s }

  /** What is offered from s when event e meets status st. */
  predicate OffersRightly(filter: seq<uint32>, m: Message, s: byte, st: Status, e: Event, o: Option<Message>) {
    if Finishes(m, s, st, e) && MatchesPgns(m.pgn % 0x100_0000, filter)
    then o == Some(Arrived(m, s))
    else !FromSource(o, s)
  }

  /** One turn of the table is one step of the session's status. */
  lemma TurnFollows(t: Table, filter: seq<uint32>, m: Message, s: byte, st: Status, e: Event)
    requires MIN_DATA <= |m.data| <= MAX_DATA && TableOk(t) && Tracks(t, m, s, st) && Admissible(m, s, e.cf)
    ensures var (t', offer) := Turn(t, filter, e.now, e.cf);
      && TableOk(t') && Tracks(t', m, s, After(m, s, st, e))
      && OffersRightly(filter, m, s, st, e, offer)
  {
    TurnKeepsTable(t, filter, e.now, e.cf);
    if |e.cf.data| >= 1 && IsSegment(m, s, e.cf, e.cf.data[0]) {
      SegmentFollows(t, filter, m, s, st, e, e.cf.data[0]);
    } else if Foreign(e.cf, s) {
      ForeignTurn(t, filter, e, s);
    } else {
      HarmlessTurn(t, filter, e, m, s);
    }
  }

  lemma SegmentFollows(t: Table, filter: seq<uint32>, m: Message, s: byte, st: Status, e: Event, q: nat)
    requires MIN_DATA <= |m.data| <= MAX_DATA && TableOk(t) && Tracks(t, m, s, st)
    requires |e.cf.data| >= 1 && e.cf.data[0] == q && IsSegment(m, s, e.cf, q)
    ensures var (t', offer) := Turn(t, filter, e.now, e.cf);
      && Tracks(t', m, s, After(m, s, st, e))
      && OffersRightly(filter, m, s, st, e, offer)
  {
    SegmentTurn(t, filter, e.now, m, s, q);
    if st.Open? && q !in st.got {
      SegmentFills(t[s], m, s, st.got, st.last, e.now, q);
    }
  }

  // ---------------------------------------------------------------- whole runs

  function StatusAfter(m: Message, s: byte, st: Status, events: seq<Event>): Status
    decreases |events|
  {
    if events == [] then st else StatusAfter(m, s, After(m, s, st, events[0]), events[1..])
  }

  lemma TailPrefix<T>(s: seq<T>, i: nat)
    requires 0 < i < |s|
    ensures s[..i] != [] && s[..i][0] == s[0] && s[..i][1..] == s[1..][..i - 1]
  {
  }

  /** Event i is met by the session as the events before it have left it. */
  lemma {:induction false} RunFollows(t: Table, filter: seq<uint32>, m: Message, s: byte, st: Status,
      events: seq<Event>, i: nat)
    requires MIN_DATA <= |m.data| <= MAX_DATA && TableOk(t) && Tracks(t, m, s, st)
    requires forall k :: 0 <= k < |events| ==> Admissible(m, s, events[k].cf)
    requires i < |events|
    ensures OffersRightly(filter, m, s, StatusAfter(m, s, st, events[..i]), events[i], Offers(t, filter, events)[i])
    decreases |events|
  {
    var e := events[0];
    TurnFollows(t, filter, m, s, st, e);
    if i == 0 {
      assert events[..0] == [];
    } else {
      RunFollows(Turn(t, filter, e.now, e.cf).0, filter, m, s, After(m, s, st, e), events[1..], i - 1);
      LaterStatus(m, s, st, events, i);
      LaterOffer(t, filter, events, i);
    }
  }

  lemma LaterStatus(m: Message, s: byte, st: Status, events: seq<Event>, i: nat)
    requires 0 < i < |events|
    ensures StatusAfter(m, s, st, events[..i]) == StatusAfter(m, s, After(m, s, st, events[0]), events[1..][..i - 1])
  {
    TailPrefix(events, i);
  }

  lemma LaterOffer(t: Table, filter: seq<uint32>, events: seq<Event>, i: nat)
    requires 0 < i < |events|
    ensures Offers(t, filter, events)[i]
      == Offers(Turn(t, filter, events[0].now, events[0].cf).0, filter, events[1..])[i - 1]
  {
  }

  function SegmentIn(m: Message, s: byte, cf: CanFrame): (h: set<nat>)
    ensures h <= AllSegments(m)
  {
    if |cf.data| >= 1 && IsSegment(m, s, cf, cf.data[0]) then {cf.data[0] as nat} else {}
  }

  /** The segments of m that occur in a run. */
  function HeardIn(m: Message, s: byte, events: seq<Event>): (h: set<nat>)
    ensures h <= AllSegments(m)
    decreases |events|
  {
    if events == [] then {} else SegmentIn(m, s, events[0].cf) + HeardIn(m, s, events[1..])
  }

  /** No extended frame finds the session silent for longer than the timeout. */
  predicate NeverStale(m: Message, s: byte, st: Status, events: seq<Event>)
    decreases |events|
  {
    events == [] || st.Gone? || (!Stale(st, events[0]) && NeverStale(m, s, After(m, s, st, events[0]), events[1..]))
  }

  lemma {:induction false} GoneStays(m: Message, s: byte, events: seq<Event>)
    ensures StatusAfter(m, s, Gone, events) == Gone
    decreases |events|
  {
    if events != [] {
      GoneStays(m, s, events[1..]);
    }
  }

  /** One event adds the segment it carries, if any. */
  lemma AfterAddsSegment(m: Message, s: byte, got: set<nat>, last: int, e: Event)
    requires got < AllSegments(m) && !Stale(Open(got, last), e)
    ensures var st, got' := After(m, s, Open(got, last), e), got + SegmentIn(m, s, e.cf);
      if got' == AllSegments(m) then st.Gone? else st.Open? && st.got == got'
  {
    if NewSegment(m, s, got, e.cf).None? {
      assert got + SegmentIn(m, s, e.cf) == got;
    }
  }

  lemma UnionAssociates<T>(a: set<T>, b: set<T>, c: set<T>)
    ensures a + (b + c) == (a + b) + c
  {
  }

  lemma UnionCovers<T>(a: set<T>, b: set<T>, all: set<T>)
    requires a == all && b <= all
    ensures a + b == all
  {
  }

  /** Order and repetition do not matter: the status is the set of segments heard. */
  lemma {:induction false} StatusIsWhatWasHeard(m: Message, s: byte, got: set<nat>, last: int, events: seq<Event>)
    requires got < AllSegments(m) && NeverStale(m, s, Open(got, last), events)
    ensures var st := StatusAfter(m, s, Open(got, last), events);
      if got + HeardIn(m, s, events) == AllSegments(m) then st.Gone?
      else st.Open? && st.got == got + HeardIn(m, s, events)
    decreases |events|
  {
    if events == [] {
      assert got + {} == got;
    } else {
      var e, rest := events[0], events[1..];
      AfterAddsSegment(m, s, got, last, e);
      var st := After(m, s, Open(got, last), e);
      UnionAssociates(got, SegmentIn(m, s, e.cf), HeardIn(m, s, rest));
      if st.Gone? {
        GoneStays(m, s, rest);
        UnionCovers(got + SegmentIn(m, s, e.cf), HeardIn(m, s, rest), AllSegments(m));
      } else {
        StatusIsWhatWasHeard(m, s, st.got, st.last, rest);
      }
    }
  }

  lemma {:induction false} NeverStalePrefix(m: Message, s: byte, st: Status, events: seq<Event>, i: nat)
    requires i < |events| && NeverStale(m, s, st, events)
    ensures NeverStale(m, s, st, events[..i])
    ensures StatusAfter(m, s, st, events[..i]).Open? ==> !Stale(StatusAfter(m, s, st, events[..i]), events[i])
    decreases |events|
  {
    if st.Gone? {
      GoneStays(m, s, events[..i]);
    } else if i > 0 {
      assert events[..i][1..] == events[1..][..i - 1];
      NeverStalePrefix(m, s, After(m, s, st, events[0]), events[1..], i - 1);
    }
  }

  lemma {:induction false} HeardConcat(m: Message, s: byte, a: seq<Event>, b: seq<Event>)
    ensures HeardIn(m, s, a + b) == HeardIn(m, s, a) + HeardIn(m, s, b)
    decreases |a|
  {
    if a == [] {
      assert a + b == b;
    } else {
      assert (a + b)[1..] == a[1..] + b;
      HeardConcat(m, s, a[1..], b);
      UnionAssociates(SegmentIn(m, s, a[0].cf), HeardIn(m, s, a[1..]), HeardIn(m, s, b));
    }
  }

  lemma HeardSnoc(m: Message, s: byte, events: seq<Event>, e: Event)
    ensures HeardIn(m, s, events + [e]) == HeardIn(m, s, events) + SegmentIn(m, s, e.cf)
  {
    HeardConcat(m, s, events, [e]);
    assert [e][1..] == [];
  }

  /** The transfer is complete by event i, and was not before. */
  predicate CompletesAt(m: Message, s: byte, events: seq<Event>, i: nat)
    requires i < |events|
  {
    HeardIn(m, s, events[..i + 1]) == AllSegments(m) && HeardIn(m, s, events[..i]) != AllSegments(m)
  }

  lemma PrefixSnoc<T>(s: seq<T>, i: nat)
    requires i < |s|
    ensures s[..i + 1] == s[..i] + [s[i]]
  {
  }

  lemma CutPrefix<T>(s: seq<T>, i: nat, j: nat)
    requires i <= j <= |s|
    ensures s[..j] == s[..i] + s[i..j]
  {
  }

  lemma HeardGrows(m: Message, s: byte, events: seq<Event>, i: nat, j: nat)
    requires i <= j <= |events|
    ensures HeardIn(m, s, events[..i]) <= HeardIn(m, s, events[..j])
  {
    CutPrefix(events, i, j);
    HeardConcat(m, s, events[..i], events[i..j]);
  }

  lemma {:induction false} FirstComplete(m: Message, s: byte, events: seq<Event>, n: nat) returns (i: nat)
    requires 1 in AllSegments(m) && n <= |events| && HeardIn(m, s, events[..n]) == AllSegments(m)
    ensures i < n && CompletesAt(m, s, events, i)
    decreases n
  {
    if n > 0 && HeardIn(m, s, events[..n - 1]) == AllSegments(m) {
      i := FirstComplete(m, s, events, n - 1);
    } else {
      i := n - 1;
    }
  }

  lemma CompletesBefore(m: Message, s: byte, events: seq<Event>, i: nat, n: nat)
    requires i < n <= |events| && CompletesAt(m, s, events, i)
    ensures HeardIn(m, s, events[..n]) == AllSegments(m)
  {
    HeardGrows(m, s, events, i + 1, n);
  }

  /** No run completes the transfer twice. */
  lemma CompletesOnce(m: Message, s: byte, events: seq<Event>, i: nat, j: nat)
    requires i < j < |events|
    ensures !CompletesAt(m, s, events, i) || !CompletesAt(m, s, events, j)
  {
    if CompletesAt(m, s, events, i) {
      CompletesBefore(m, s, events, i, j);
    }
  }

  /** A run completes it exactly when it brings every packet. */
  lemma CompletesIfAllHeard(m: Message, s: byte, events: seq<Event>)
    requires 1 in AllSegments(m)
    ensures (exists i :: 0 <= i < |events| && CompletesAt(m, s, events, i)) <==> HeardIn(m, s, events) == AllSegments(m)
  {
    assert events[..|events|] == events;
    if HeardIn(m, s, events) == AllSegments(m) {
      var i := FirstComplete(m, s, events, |events|);
    }
    if i: nat :| i < |events| && CompletesAt(m, s, events, i) {
      CompletesBefore(m, s, events, i, |events|);
    }
  }

  lemma FinishesWhenAllIn(m: Message, s: byte, got: set<nat>, last: int, e: Event)
    requires got < AllSegments(m) && !Stale(Open(got, last), e)
    ensures Finishes(m, s, Open(got, last), e) <==> got + SegmentIn(m, s, e.cf) == AllSegments(m)
  {
  }

  lemma StatusFromStart(m: Message, s: byte, t0: int, events: seq<Event>)
    requires NeverStale(m, s, Open({}, t0), events) && 1 in AllSegments(m)
    ensures var st, h := StatusAfter(m, s, Open({}, t0), events), HeardIn(m, s, events);
      if h == AllSegments(m) then st.Gone? else st.Open? && st.got == h
  {
    StatusIsWhatWasHeard(m, s, {}, t0, events);
    assert {} + HeardIn(m, s, events) == HeardIn(m, s, events);
  }

  lemma FinishesWhenComplete(m: Message, s: byte, t0: int, before: seq<Event>, e: Event)
    requires NeverStale(m, s, Open({}, t0), before) && 1 in AllSegments(m)
    requires var st := StatusAfter(m, s, Open({}, t0), before); st.Open? ==> !Stale(st, e)
    ensures Finishes(m, s, StatusAfter(m, s, Open({}, t0), before), e) <==>
      HeardIn(m, s, before + [e]) == AllSegments(m) && HeardIn(m, s, before) != AllSegments(m)
  {
    StatusFromStart(m, s, t0, before);
    HeardSnoc(m, s, before, e);
    var st := StatusAfter(m, s, Open({}, t0), before);
    if st.Open? {
      FinishesWhenAllIn(m, s, st.got, st.last, e);
    }
  }

  lemma FinishesAtCompletion(m: Message, s: byte, t0: int, events: seq<Event>, i: nat)
    requires i < |events| && NeverStale(m, s, Open({}, t0), events) && 1 in AllSegments(m)
    ensures Finishes(m, s, StatusAfter(m, s, Open({}, t0), events[..i]), events[i]) <==> CompletesAt(m, s, events, i)
  {
    NeverStalePrefix(m, s, Open({}, t0), events, i);
    FinishesWhenComplete(m, s, t0, events[..i], events[i]);
    PrefixSnoc(events, i);
  }

  /** What the run that follows an announcement offers, event by event. */
  lemma OffersAtCompletion(t: Table, filter: seq<uint32>, m: Message, s: byte, t0: int, events: seq<Event>, i: nat)
    requires TableOk(t) && MIN_DATA <= |m.data| <= MAX_DATA && Tracks(t, m, s, Open({}, t0)) && 1 in AllSegments(m)
    requires forall k :: 0 <= k < |events| ==> Admissible(m, s, events[k].cf)
    requires NeverStale(m, s, Open({}, t0), events) && i < |events|
    ensures if CompletesAt(m, s, events, i) && MatchesPgns(m.pgn % 0x100_0000, filter)
            then Offers(t, filter, events)[i] == Some(Arrived(m, s))
            else !FromSource(Offers(t, filter, events)[i], s)
  {
    RunFollows(t, filter, m, s, Open({}, t0), events, i);
    FinishesAtCompletion(m, s, t0, events, i);
  }

  lemma OffersAfter(t: Table, filter: seq<uint32>, e: Event, events: seq<Event>)
    ensures var (t', offer) := Turn(t, filter, e.now, e.cf);
      Offers(t, filter, [e] + events) == [offer] + Offers(t', filter, events)
  {
    assert ([e] + events)[1..] == events;
  }

  lemma SegmentsExist(m: Message)
    requires MIN_DATA <= |m.data|
    ensures 1 in AllSegments(m)
  {
  }

  /** What the i-th event after the announcement may make the table offer. */
  predicate OfferRight(
    filter: seq<uint32>, m: Message, s: byte, events: seq<Event>, i: nat, offers: seq<Option<Message>>)
    requires i < |events| && i + 1 < |offers|
  {
    if CompletesAt(m, s, events, i) && MatchesPgns(m.pgn % 0x100_0000, filter)
    then offers[i + 1] == Some(Arrived(m, s))
    else !FromSource(offers[i + 1], s)
  }

  lemma AnnouncementOffer(t: Table, filter: seq<uint32>, m: Message, s: byte, t0: int, events: seq<Event>)
    requires TableOk(t) && MIN_DATA <= |m.data| <= MAX_DATA
    ensures Offers(t, filter, [Event(t0, Announcement(m, s))] + events)[0].None?
  {
    AnnouncementTurn(t, filter, t0, m, s);
    OffersAfter(t, filter, Event(t0, Announcement(m, s)), events);
  }

  lemma ArrivalOffer(
    t: Table, filter: seq<uint32>, m: Message, s: byte, t0: int, events: seq<Event>, i: nat)
    requires TableOk(t) && MIN_DATA <= |m.data| <= MAX_DATA && i < |events|
    requires forall j :: 0 <= j < |events| ==> Admissible(m, s, events[j].cf)
    requires NeverStale(m, s, Open({}, t0), events)
    ensures OfferRight(filter, m, s, events, i, Offers(t, filter, [Event(t0, Announcement(m, s))] + events))
  {
    var first := Event(t0, Announcement(m, s));
    AnnouncementTurn(t, filter, t0, m, s);
    OffersAfter(t, filter, first, events);
    OffersAtCompletion(Turn(t, filter, t0, first.cf).0, filter, m, s, t0, events, i);
  }

  /** Any run in which the session is neither swept nor announced anew: of all that is
      offered after the announcement, exactly one message is from s, it is m with its
      group modulo 2^24 and its priority modulo 8, and it comes with the packet that
      completes the set, whatever the order, the repetitions and the other traffic. */
  lemma EveryArrivalOrderReassembles(t: Table, filter: seq<uint32>, m: Message, s: byte, t0: int, events: seq<Event>)
    requires TableOk(t) && MIN_DATA <= |m.data| <= MAX_DATA
    requires forall i :: 0 <= i < |events| ==> Admissible(m, s, events[i].cf)
    requires NeverStale(m, s, Open({}, t0), events)
    ensures var o := Offers(t, filter, [Event(t0, Announcement(m, s))] + events);
      && o[0].None?
      && forall i :: 0 <= i < |events| ==> OfferRight(filter, m, s, events, i, o)
    ensures forall i, j :: 0 <= i < j < |events| ==> !CompletesAt(m, s, events, i) || !CompletesAt(m, s, events, j)
    ensures (exists i :: 0 <= i < |events| && CompletesAt(m, s, events, i)) <==> HeardIn(m, s, events) == AllSegments(m)
  {
    SegmentsExist(m);
    CompletesIfAllHeard(m, s, events);
    forall i, j | 0 <= i < j < |events|
      ensures !CompletesAt(m, s, events, i) || !CompletesAt(m, s, events, j)
    {
      CompletesOnce(m, s, events, i, j);
    }
    AnnouncementOffer(t, filter, m, s, t0, events);
    forall i | 0 <= i < |events|
      ensures OfferRight(filter, m, s, events, i, Offers(t, filter, [Event(t0, Announcement(m, s))] + events))
    {
      ArrivalOffer(t, filter, m, s, t0, events, i);
    }
  }

  lemma {:induction false} StatusConcat(m: Message, s: byte, st: Status, a: seq<Event>, b: seq<Event>)
    ensures StatusAfter(m, s, st, a + b) == StatusAfter(m, s, StatusAfter(m, s, st, a), b)
    decreases |a|
  {
    if a == [] {
      assert a + b == b;
    } else {
      assert (a + b)[1..] == a[1..] + b;
      StatusConcat(m, s, After(m, s, st, a[0]), a[1..], b);
    }
  }

  lemma SweptStaysGone(m: Message, s: byte, st: Status, events: seq<Event>, k: nat, i: nat)
    requires k < i <= |events|
    requires StatusAfter(m, s, st, events[..k]).Open? && Stale(StatusAfter(m, s, st, events[..k]), events[k])
    ensures StatusAfter(m, s, st, events[..i]) == Gone
  {
    CutPrefix(events, k, i);
    StatusConcat(m, s, st, events[..k], events[k..i]);
    GoneStays(m, s, events[k..i][1..]);
  }

  /** If the session is swept before the transfer is complete, nothing from s is
      offered from then on: no late packet revives it. */
  lemma SweptTransferIsSilent(t: Table, filter: seq<uint32>, m: Message, s: byte, st: Status, events: seq<Event>,
      k: nat)
    requires TableOk(t) && MIN_DATA <= |m.data| <= MAX_DATA && Tracks(t, m, s, st)
    requires forall i :: 0 <= i < |events| ==> Admissible(m, s, events[i].cf)
    requires k < |events| && StatusAfter(m, s, st, events[..k]).Open?
    requires Stale(StatusAfter(m, s, st, events[..k]), events[k])
    ensures forall i :: k <= i < |events| ==> !FromSource(Offers(t, filter, events)[i], s)
  {
    forall i | k <= i < |events|
      ensures !FromSource(Offers(t, filter, events)[i], s)
    {
      RunFollows(t, filter, m, s, st, events, i);
      if i > k {
        SweptStaysGone(m, s, st, events, k, i);
      }
    }
  }
}
