/** Every message the session table ever offers, explained by the packets it accepted:
    over all runs, from any mixture of well-formed, stray and malformed frames. */
module BamHistory {
  import opened Bytes
  import opened J1939
  import opened Bam
  import opened BamReassembly

  /** A frame the table acted on: when, with what priority and data. */
  datatype Packet = Packet(at: int, priority: byte, data: seq<byte>)

  /** Per source: its latest announcement, then the packets accepted since. */
  type Log = map<byte, seq<Packet>>

  function Recorded(log: Log, t: Table, now: int, cf: CanFrame): Log {
    if !cf.ext then log
    else
      var id := DecodeId(cf.id);
      var live := Swept(t, now);
      if id.pgn == PGN_TP_CM && Opens(cf.data) then log[id.src := [Packet(now, id.priority, cf.data)]]
      else if id.pgn == PGN_TP_DT && id.src in live && Fills(live[id.src], cf.data)
      then log[id.src := (if id.src in log then log[id.src] else []) + [Packet(now, id.priority, cf.data)]]
      else log
  }

  /** An announcement followed by distinct packets, none later than the timeout after
      its predecessor. */
  predicate Orderly(es: seq<Packet>) {
    && |es| >= 1 && Opens(es[0].data)
    && (forall i :: 1 <= i < |es| ==> |es[i].data| >= 8 && 1 <= es[i].data[0] <= es[0].data[3])
    && (forall i, j :: 1 <= i < j < |es| ==> es[i].data[0] != es[j].data[0])
    && (forall i :: 1 <= i < |es| ==> es[i].at - es[i - 1].at <= SESSION_TIMEOUT)
  }

  /** The packets' octets lie where their numbers say. */
  predicate InPlace(buf: seq<byte>, es: seq<Packet>)
    requires forall i :: 1 <= i < |es| ==> |es[i].data| >= 8 && 1 <= es[i].data[0]
  {
    forall i, x :: 1 <= i < |es| && 0 <= x < |buf| && x / 7 == es[i].data[0] - 1 ==>
      buf[x] == es[i].data[x % 7 + 1]
  }

  /** Packet number q is in the log. */
  predicate Logged(es: seq<Packet>, q: nat) {
    exists i :: 1 <= i < |es| && |es[i].data| >= 1 && es[i].data[0] == q
  }

  /** The segments marked as seen are those with a packet in the log. */
  predicate SeenAreLogged(es: seq<Packet>, seen: seq<bool>) {
    forall k :: 0 <= k < |seen| ==> (seen[k] <==> Logged(es, k + 1))
  }

  /** A session holds exactly what its log says. */
  predicate Explains(es: seq<Packet>, s: Session) {
    && Orderly(es) && |es| == s.received + 1
    && s.totalSize == AnnouncedSize(es[0].data) && s.numPackets == es[0].data[3]
    && s.pgn == PgnOf(es[0].data[5], es[0].data[6], es[0].data[7]) && s.priority == es[0].priority
    && es[|es| - 1].at == s.lastSeen
    && |s.seen| == s.numPackets && SeenAreLogged(es, s.seen)
    && InPlace(s.buf, es)
  }

  ghost predicate LogOk(log: Log, t: Table) {
    forall k :: k in t ==> k in log && Explains(log[k], t[k])
  }

  /** A packet of the log put the octet at position x there. */
  predicate Carried(es: seq<Packet>, buf: seq<byte>, x: nat)
    requires x < |buf|
  {
    exists i :: 1 <= i < |es| && |es[i].data| >= 8 && es[i].data[0] as int - 1 == x / 7 &&
      buf[x] == es[i].data[x % 7 + 1]
  }

  /** What an offered message is made of: the announced number of distinct packets, of
      which every octet is that they have room for, and zeros behind them. */
  predicate MadeOf(msg: Message, es: seq<Packet>, now: int) {
    && Orderly(es) && |es| - 1 == es[0].data[3] && es[|es| - 1].at == now
    && |msg.data| == AnnouncedSize(es[0].data)
    && msg.pgn == PgnOf(es[0].data[5], es[0].data[6], es[0].data[7])
    && msg.priority == es[0].priority && msg.dst == BROADCAST
    && (forall q :: 1 <= q <= es[0].data[3] ==> Logged(es, q))
    && InPlace(msg.data, es)
    && (forall x :: 0 <= x < |msg.data| ==>
          if x / 7 < es[0].data[3] then Carried(es, msg.data, x) else msg.data[x] == 0)
  }

  // ---------------------------------------------------------------- one packet more

  lemma LoggedSnoc(es: seq<Packet>, p: Packet, q: nat)
    requires |es| >= 1 && |p.data| >= 1
    ensures Logged(es + [p], q) <==> Logged(es, q) || p.data[0] == q
  {
    var more := es + [p];
    if Logged(es, q) {
      var i :| 1 <= i < |es| && |es[i].data| >= 1 && es[i].data[0] == q;
      assert more[i] == es[i];
    }
    if p.data[0] == q {
      assert more[|es|] == p;
    }
  }

  lemma AcceptLogs(es: seq<Packet>, seen: seq<bool>, p: Packet)
    requires |es| >= 1 && SeenAreLogged(es, seen) && |p.data| >= 1 && 1 <= p.data[0] <= |seen|
    ensures SeenAreLogged(es + [p], seen[p.data[0] - 1 := true])
  {
    var seen' := seen[p.data[0] - 1 := true];
    forall k | 0 <= k < |seen'| ensures seen'[k] <==> Logged(es + [p], k + 1) {
      LoggedSnoc(es, p, k + 1);
    }
  }

  lemma AcceptInPlace(es: seq<Packet>, s: Session, p: Packet)
    requires Orderly(es) && InPlace(s.buf, es) && |p.data| >= 8 && p.data[0] >= 1
    requires forall i :: 1 <= i < |es| ==> es[i].data[0] != p.data[0]
    ensures InPlace(Overlay(s.buf, p.data[0], p.data), es + [p])
  {
    var es', buf' := es + [p], Overlay(s.buf, p.data[0], p.data);
    forall i, x | 1 <= i < |es'| && 0 <= x < |buf'| && x / 7 == es'[i].data[0] - 1
      ensures buf'[x] == es'[i].data[x % 7 + 1]
    {
      if i < |es| {
        assert es'[i] == es[i] && s.buf[x] == es[i].data[x % 7 + 1];
      }
    }
  }

  /** A new segment's number is not in the log yet. */
  lemma NewIsUnlogged(es: seq<Packet>, s: Session, data: seq<byte>)
    requires Explains(es, s) && Fills(s, data)
    ensures forall i :: 1 <= i < |es| ==> es[i].data[0] != data[0]
  {
    var k: nat := data[0] - 1;
    assert s.seen[k] <==> Logged(es, k + 1);
  }

  lemma AcceptOrderly(es: seq<Packet>, s: Session, p: Packet)
    requires Explains(es, s) && Fills(s, p.data) && !Expired(s, p.at)
    ensures Orderly(es + [p])
  {
    NewIsUnlogged(es, s, p.data);
  }

  lemma AcceptExplains(es: seq<Packet>, s: Session, p: Packet)
    requires Explains(es, s) && Fills(s, p.data) && !Expired(s, p.at)
    ensures Explains(es + [p], WithSegment(s, p.data, p.at))
  {
    NewIsUnlogged(es, s, p.data);
    AcceptOrderly(es, s, p);
    AcceptLogs(es, s.seen, p);
    AcceptInPlace(es, s, p);
  }

  // ---------------------------------------------------------------- a complete session

  /** A logged packet carries its seven octets. */
  lemma LoggedCarries(es: seq<Packet>, buf: seq<byte>, x: nat)
    requires Orderly(es) && InPlace(buf, es) && x < |buf| && Logged(es, x / 7 + 1)
    ensures Carried(es, buf, x)
  {
    var i :| 1 <= i < |es| && |es[i].data| >= 1 && es[i].data[0] == x / 7 + 1;
    assert buf[x] == es[i].data[x % 7 + 1];
  }

  /** A session with all its segments is made of its log. */
  lemma CompleteIsMade(es: seq<Packet>, s: Session)
    requires Explains(es, s) && s.received == s.numPackets
    requires forall k :: 0 <= k < |s.seen| ==> s.seen[k]
    requires |s.buf| == s.totalSize && forall x :: 0 <= x < |s.buf| && x / 7 >= s.numPackets ==> s.buf[x] == 0
    ensures MadeOf(Offer(s), es, s.lastSeen)
  {
    forall q | 1 <= q <= es[0].data[3] ensures Logged(es, q) {
      assert s.seen[q - 1] <==> Logged(es, q - 1 + 1);
    }
    forall x | 0 <= x < |s.buf|
      ensures if x / 7 < es[0].data[3] then Carried(es, s.buf, x) else s.buf[x] == 0
    {
      if x / 7 < es[0].data[3] {
        LoggedCarries(es, s.buf, x);
      }
    }
  }

  /** The last missing segment completes the session. */
  lemma LastSegmentMakes(es: seq<Packet>, k: byte, s: Session, p: Packet)
    requires SessionOk(k, s) && Explains(es, s) && Fills(s, p.data) && !Expired(s, p.at)
    requires WithSegment(s, p.data, p.at).received == s.numPackets
    ensures MadeOf(Offer(WithSegment(s, p.data, p.at)), es + [p], p.at)
  {
    var s' := WithSegment(s, p.data, p.at);
    AcceptExplains(es, s, p);
    CountOfUpdate(s.seen, p.data[0] - 1);
    CountBounds(s'.seen);
    CompleteIsMade(es + [p], s');
  }

  // ---------------------------------------------------------------- one turn

  lemma SweepExplained(log: Log, t: Table, now: int)
    requires LogOk(log, t) && TableOk(t)
    ensures LogOk(log, Swept(t, now)) && TableOk(Swept(t, now))
  {
  }

  lemma OpeningExplains(id: DecodedId, data: seq<byte>, now: int)
    requires Opens(data)
    ensures Explains([Packet(now, id.priority, data)], NewSession(id, data, now))
  {
  }

  lemma AnnouncementExplained(log: Log, live: Table, id: DecodedId, data: seq<byte>, now: int)
    requires LogOk(log, live) && Opens(data)
    ensures LogOk(log[id.src := [Packet(now, id.priority, data)]], live[id.src := NewSession(id, data, now)])
  {
    OpeningExplains(id, data, now);
  }

  lemma PacketExplained(log: Log, live: Table, k: byte, p: Packet)
    requires LogOk(log, live) && TableOk(live) && k in live && Fills(live[k], p.data) && !Expired(live[k], p.at)
    ensures var log', s := log[k := log[k] + [p]], WithSegment(live[k], p.data, p.at);
      && LogOk(log', live[k := s]) && LogOk(log', live - {k})
      && (s.received == s.numPackets ==> s.src == k && MadeOf(Offer(s), log'[k], p.at))
  {
    AcceptExplains(log[k], live[k], p);
    if WithSegment(live[k], p.data, p.at).received == live[k].numPackets {
      LastSegmentMakes(log[k], k, live[k], p);
    }
  }

  /** What a turn must keep and account for. */
  ghost predicate Accounted(next: Table, offer: Option<Message>, log: Log, now: int) {
    LogOk(log, next) && (offer.Some? ==> offer.value.src in log && MadeOf(offer.value, log[offer.value.src], now))
  }

  lemma ControlAccounted(t: Table, log: Log, filter: seq<uint32>, now: int, cf: CanFrame)
    requires TableOk(t) && LogOk(log, t) && cf.ext && DecodeId(cf.id).pgn == PGN_TP_CM
    ensures Accounted(Turn(t, filter, now, cf).0, Turn(t, filter, now, cf).1, Recorded(log, t, now, cf), now)
  {
    var id, live := DecodeId(cf.id), Swept(t, now);
    SweepExplained(log, t, now);
    if Opens(cf.data) {
      CapNeverRejects(live, id.src);
      AnnouncementExplained(log, live, id, cf.data, now);
    }
  }

  lemma IdleDataAccounted(t: Table, log: Log, filter: seq<uint32>, now: int, cf: CanFrame)
    requires TableOk(t) && LogOk(log, t) && cf.ext && DecodeId(cf.id).pgn == PGN_TP_DT
    requires var live, src := Swept(t, now), DecodeId(cf.id).src; !(src in live && Fills(live[src], cf.data))
    ensures Accounted(Turn(t, filter, now, cf).0, Turn(t, filter, now, cf).1, Recorded(log, t, now, cf), now)
  {
    SweepExplained(log, t, now);
  }

  lemma DataAccounted(t: Table, log: Log, filter: seq<uint32>, now: int, cf: CanFrame)
    requires TableOk(t) && LogOk(log, t) && cf.ext && DecodeId(cf.id).pgn == PGN_TP_DT
    requires var live, src := Swept(t, now), DecodeId(cf.id).src; src in live && Fills(live[src], cf.data)
    ensures Accounted(Turn(t, filter, now, cf).0, Turn(t, filter, now, cf).1, Recorded(log, t, now, cf), now)
  {
    var id, live := DecodeId(cf.id), Swept(t, now);
    SweepExplained(log, t, now);
    assert id.src in log;
    PacketExplained(log, live, id.src, Packet(now, id.priority, cf.data));
  }

  /** One turn keeps the log's account, and what it offers is accounted for. */
  lemma TurnExplained(t: Table, log: Log, filter: seq<uint32>, now: int, cf: CanFrame)
    requires TableOk(t) && LogOk(log, t)
    ensures var ((t', offer), log') := (Turn(t, filter, now, cf), Recorded(log, t, now, cf));
      && TableOk(t') && LogOk(log', t')
      && (offer.Some? ==> offer.value.src in log' && MadeOf(offer.value, log'[offer.value.src], now))
  {
    TurnKeepsTable(t, filter, now, cf);
    if cf.ext && DecodeId(cf.id).pgn == PGN_TP_CM {
      ControlAccounted(t, log, filter, now, cf);
    } else if cf.ext && DecodeId(cf.id).pgn == PGN_TP_DT {
      var live, src := Swept(t, now), DecodeId(cf.id).src;
      if src in live && Fills(live[src], cf.data) {
        DataAccounted(t, log, filter, now, cf);
      } else {
        IdleDataAccounted(t, log, filter, now, cf);
      }
    } else {
      SweepExplained(log, t, now);
    }
  }

  // ---------------------------------------------------------------- whole runs

  function LogAfter(t: Table, log: Log, filter: seq<uint32>, events: seq<Event>): Log
    decreases |events|
  {
    if events == [] then log
    else
      var e := events[0];
      LogAfter(Turn(t, filter, e.now, e.cf).0, Recorded(log, t, e.now, e.cf), filter, events[1..])
  }

  /** In every run, every message offered consists of the announced number of distinct
      packets, each accepted no later than 750 ms after the one before, each in the
      place its number gives it. */
  lemma {:induction false} EveryOfferExplained(t: Table, log: Log, filter: seq<uint32>, events: seq<Event>)
    requires TableOk(t) && LogOk(log, t)
    ensures forall i :: 0 <= i < |events| && Offers(t, filter, events)[i].Some? ==>
      var msg, after := Offers(t, filter, events)[i].value, LogAfter(t, log, filter, events[..i + 1]);
      msg.src in after && MadeOf(msg, after[msg.src], events[i].now)
    decreases |events|
  {
    if events != [] {
      var e, rest := events[0], events[1..];
      TurnExplained(t, log, filter, e.now, e.cf);
      var t', log' := Turn(t, filter, e.now, e.cf).0, Recorded(log, t, e.now, e.cf);
      EveryOfferExplained(t', log', filter, rest);
      forall i | 0 <= i < |events| && Offers(t, filter, events)[i].Some?
        ensures var msg, after := Offers(t, filter, events)[i].value, LogAfter(t, log, filter, events[..i + 1]);
          msg.src in after && MadeOf(msg, after[msg.src], events[i].now)
      {
        if i == 0 {
          assert events[..1][1..] == [];
        } else {
          assert events[..i + 1][1..] == rest[..i];
        }
      }
    }
  }

  // ---------------------------------------------------------------- octets no packet carried

  /** Every octet of a message came in a packet exactly when the packets announced have
      room for the size announced; nothing in an announcement makes sure of that. */
  lemma CoveredExactly(msg: Message, es: seq<Packet>, now: int)
    requires MadeOf(msg, es, now)
    ensures (forall x :: 0 <= x < |msg.data| ==> Carried(es, msg.data, x))
       <==> Packets(AnnouncedSize(es[0].data)) <= es[0].data[3]
  {
    var n: int, np: int := |msg.data|, es[0].data[3];
    if n > 7 * np {
      var x := 7 * np;
      assert x / 7 == np && !Carried(es, msg.data, x);
    } else {
      forall x | 0 <= x < n ensures Carried(es, msg.data, x) {
        assert x / 7 < np;
      }
    }
  }

  /** In every run, for every message offered: all of it was carried by packets accepted
      from its source if and only if its announcement asked for enough of them. */
  lemma EveryOfferCoveredExactly(t: Table, log: Log, filter: seq<uint32>, events: seq<Event>, i: nat)
    requires TableOk(t) && LogOk(log, t) && i < |events| && Offers(t, filter, events)[i].Some?
    ensures var msg, after := Offers(t, filter, events)[i].value, LogAfter(t, log, filter, events[..i + 1]);
      && msg.src in after && MadeOf(msg, after[msg.src], events[i].now)
      && ((forall x :: 0 <= x < |msg.data| ==> Carried(after[msg.src], msg.data, x))
          <==> Packets(AnnouncedSize(after[msg.src][0].data)) <= after[msg.src][0].data[3])
  {
    EveryOfferExplained(t, log, filter, events);
    var msg, after := Offers(t, filter, events)[i].value, LogAfter(t, log, filter, events[..i + 1]);
    CoveredExactly(msg, after[msg.src], events[i].now);
  }

  /** An announcement of more octets than fit its one packet, and that packet. */
  function ShortTransfer(s: byte, size: byte, seven: seq<byte>): (events: seq<Event>)
    requires |seven| == 7
    ensures |events| == 2
  {
    [Event(0, CanFrame(AddressedId(6, PGN_TP_CM, s, BROADCAST), true,
      AnnouncementData(size, 0, 1, 0xCA, 0xFE, 0))),
     Event(0, CanFrame(AddressedId(6, PGN_TP_DT, s, BROADCAST), true, [1] + seven))]
  }

  lemma ShortSession(s: byte, size: byte, seven: seq<byte>)
    requires |seven| == 7 && size >= 9
    ensures var data, id := AnnouncementData(size, 0, 1, 0xCA, 0xFE, 0), DecodedId(6, PGN_TP_CM, s);
      && Opens(data) && Fills(NewSession(id, data, 0), [1] + seven)
      && var done := WithSegment(NewSession(id, data, 0), [1] + seven, 0);
         done.received == done.numPackets
         && Offer(done) == Message(6, 0xFECA, s, BROADCAST, seven + seq(size - 7, _ => 0))
  {
    var data, id := AnnouncementData(size, 0, 1, 0xCA, 0xFE, 0), DecodedId(6, PGN_TP_CM, s);
    assert Opens(data);
    var start := NewSession(id, data, 0);
    assert Overlay(start.buf, 1, [1] + seven) == seven + seq(size - 7, _ => 0);
  }

  lemma FirstAnnouncement(priority: byte, s: byte, data: seq<byte>, now: int)
    requires Opens(data)
    ensures Turn(map[], [], now, CanFrame(AddressedId(priority, PGN_TP_CM, s, BROADCAST), true, data))
      == (map[s := NewSession(DecodedId(priority % 8, PGN_TP_CM, s), data, now)], None)
  {
    ControlGroup(priority, s);
    assert Swept(map[], now) == map[];
  }

  lemma OnlyPacket(priority: byte, s: byte, start: Session, data: seq<byte>, now: int)
    requires Fills(start, data) && start.lastSeen == now
    requires WithSegment(start, data, now).received == start.numPackets
    ensures Turn(map[s := start], [], now, CanFrame(AddressedId(priority, PGN_TP_DT, s, BROADCAST), true, data)).1
      == Some(Offer(WithSegment(start, data, now)))
  {
    DataGroup(priority, s);
    assert Swept(map[s := start], now) == map[s := start];
  }

  /** Announced with one packet, a message of any size from the smallest, 9, to 255 is offered
      as that packet's seven octets and zeros no packet carried. */
  lemma ShortTransferIsPadded(s: byte, size: byte, seven: seq<byte>)
    requires |seven| == 7 && size >= 9
    ensures Offers(map[], [], ShortTransfer(s, size, seven))
      == [None, Some(Message(6, 0xFECA, s, BROADCAST, seven + seq(size - 7, _ => 0)))]
  {
    var events := ShortTransfer(s, size, seven);
    var announcement := events[0].cf.data;
    ShortSession(s, size, seven);
    FirstAnnouncement(6, s, announcement, 0);
    OnlyPacket(6, s, NewSession(DecodedId(6, PGN_TP_CM, s), announcement, 0), events[1].cf.data, 0);
    assert events[1..] == [events[1]] && [events[1]][1..] == [];
  }
}
