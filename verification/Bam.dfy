/** The J1939-21 broadcast transport (src/j1939/pgn.cpp): send_tp and the session
    table behind subscribe_tp. Times are nanoseconds of one monotonic clock. */
module Bam {
  import opened Bytes
  import opened J1939

  const PGN_TP_CM: uint32 := 0xEC00
  const PGN_TP_DT: uint32 := 0xEB00
  const BAM_CONTROL: byte := 0x20
  const MAX_DATA: nat := 1785
  const MIN_DATA: nat := 9
  const SESSION_TIMEOUT: int := 750_000_000
  const MAX_SESSIONS: nat := 256

  datatype Error = InvalidArgument | PayloadTooLarge | BusError

  // ---------------------------------------------------------------- the sender

  /** ceil(n / 7) */
  function Packets(n: nat): nat { (n + 6) / 7 }

  function AnnouncementData(sizeLo: byte, sizeHi: byte, packets: byte, pgn0: byte, pgn1: byte, pgn2: byte): seq<byte> {
    [BAM_CONTROL, sizeLo, sizeHi, packets, 0xFF, pgn0, pgn1, pgn2]
  }

  function Announcement(m: Message, src: byte): CanFrame {
    var n := |m.data|;
    CanFrame(AddressedId(m.priority, PGN_TP_CM, src, BROADCAST), true,
      AnnouncementData(n % 256, n / 256 % 256, Packets(n) % 256,
                       m.pgn % 256, m.pgn / 0x100 % 256, m.pgn / 0x1_0000 % 256))
  }

  /** The octet at position i of the message, 0xFF past its end. */
  function OctetAt(data: seq<byte>, i: nat): byte { if i < |data| then data[i] else 0xFF }

  function Chunk(data: seq<byte>, offset: nat): (c: seq<byte>)
    ensures |c| == 7 && forall i :: 0 <= i < 7 ==> c[i] == OctetAt(data, offset + i)
  {
    seq<byte>(7, i requires 0 <= i < 7 => OctetAt(data, offset + i))
  }

  /** Data transfer packet number q, counting from 1. */
  function Segment(m: Message, src: byte, q: nat): CanFrame
    requires 1 <= q <= 255
  {
    CanFrame(AddressedId(m.priority, PGN_TP_DT, src, BROADCAST), true, [q] + Chunk(m.data, 7 * (q - 1)))
  }

  function Segments(m: Message, src: byte, count: nat): (s: seq<CanFrame>)
    requires count <= 255
    ensures |s| == count && forall q :: 0 <= q < count ==> s[q] == Segment(m, src, q + 1)
  {
    if count == 0 then [] else Segments(m, src, count - 1) + [Segment(m, src, count)]
  }

  /** The outcome of send_tp and the frames it puts on the bus, if that takes credit
      more frames. */
  function SendTpOf(m: Message, src: byte, credit: nat): (Result<(), Error>, seq<CanFrame>) {
    var n := |m.data|;
    if n < 9 then (Err(InvalidArgument), [])
    else if n > MAX_DATA then (Err(PayloadTooLarge), [])
    else
      var all := [Announcement(m, src)] + Segments(m, src, Packets(n));
      if credit >= |all| then (Ok(()), all) else (Err(BusError), all[..credit])
  }

  /** The j-th frame of a transport by its octets: the announcement with size, packet count and
      group, low octets first, then the packets, each with its number and seven octets, padded
      behind the end. */
  predicate IsTransportFrame(cf: CanFrame, m: Message, src: byte, j: nat) {
    var n := |m.data|;
    && cf.ext
    && if j == 0 then
         && cf.id == Identifier(m.priority % 8, 0, 0xEC, 0xFF, src)
         && cf.data == [0x20, n % 256, n / 256 % 256, (n + 6) / 7 % 256, 0xFF,
                        m.pgn % 256, m.pgn / 256 % 256, m.pgn / 65536 % 256]
       else
         && cf.id == Identifier(m.priority % 8, 0, 0xEB, 0xFF, src)
         && |cf.data| == 8 && cf.data[0] == j
         && forall k :: 1 <= k < 8 ==>
              cf.data[k] == if 7 * (j - 1) + k - 1 < n then m.data[7 * (j - 1) + k - 1] else 0xFF
  }

  /** What send_tp comes to: the two size errors, or the announcement and a packet for every
      seven octets, cut where the bus fails. */
  ghost predicate TransportOutcome(
    r: Result<(), Error>, sent: seq<CanFrame>, m: Message, src: byte, credit: nat)
  {
    var n := |m.data|;
    && (if n < 9 then r == Err(InvalidArgument) && sent == []
        else if n > 1785 then r == Err(PayloadTooLarge) && sent == []
        else if credit < 1 + (n + 6) / 7 then r == Err(BusError) && |sent| == credit
        else r == Ok(()) && |sent| == 1 + (n + 6) / 7)
    && forall j :: 0 <= j < |sent| ==> IsTransportFrame(sent[j], m, src, j)
  }

  lemma AnnouncementOctets(m: Message, src: byte)
    ensures IsTransportFrame(Announcement(m, src), m, src, 0)
  {
    EncodeLayout(m.priority, 0, 0xEC, 0, src, BROADCAST);
  }

  lemma SegmentOctets(m: Message, src: byte, q: nat)
    requires 1 <= q <= 255
    ensures IsTransportFrame(Segment(m, src, q), m, src, q)
  {
    EncodeLayout(m.priority, 0, 0xEB, 0, src, BROADCAST);
  }

  lemma SendTpDoes(m: Message, src: byte, credit: nat)
    ensures TransportOutcome(SendTpOf(m, src, credit).0, SendTpOf(m, src, credit).1, m, src, credit)
  {
    var sent := SendTpOf(m, src, credit).1;
    forall j | 0 <= j < |sent| ensures IsTransportFrame(sent[j], m, src, j) {
      if j == 0 {
        AnnouncementOctets(m, src);
      } else {
        SegmentOctets(m, src, j);
      }
    }
  }

  class Bus {
    const src: byte
    var tx: seq<CanFrame>
    var credit: nat

    constructor (src: byte, credit: nat)
      ensures this.src == src && tx == [] && this.credit == credit
    {
      this.src, tx, this.credit := src, [], credit;
    }

    method CanSend(cf: CanFrame) returns (ok: bool)
      modifies this
      ensures ok == (old(credit) > 0)
      ensures tx == (if ok then old(tx) + [cf] else old(tx))
      ensures credit == (if ok then old(credit) - 1 else old(credit))
    {
      ok := credit > 0;
      if ok {
        tx, credit := tx + [cf], credit - 1;
      }
    }

    /** The packet of one turn of send_tp's loop, filled octet by octet. */
    method FillPacket(m: Message, q: nat) returns (pkt: array<byte>)
      requires 1 <= q <= 255
      ensures fresh(pkt) && pkt[..] == Segment(m, src, q).data
    {
      pkt := new byte[8](_ => 0xFF);
      pkt[0] := q;
      var offset := (q - 1) * 7;
      for i := 1 to 8
        invariant pkt[0] == q
        invariant forall k :: 1 <= k < i ==> pkt[k] == OctetAt(m.data, offset + k - 1)
        invariant forall k :: i <= k < 8 ==> pkt[k] == 0xFF
      {
        var at := offset + i - 1;
        if at < |m.data| {
          pkt[i] := m.data[at];
        }
      }
    }

    method SendAnnouncement(m: Message) returns (ok: bool)
      modifies this
      ensures ok == (old(credit) > 0)
      ensures tx == (if ok then old(tx) + [Announcement(m, src)] else old(tx))
      ensures credit == (if ok then old(credit) - 1 else old(credit))
    {
      var n := |m.data|;
      var numPackets := (n + 7 - 1) / 7;
      var bam := [BAM_CONTROL, n % 256, n / 256 % 256, numPackets % 256, 0xFF,
                  m.pgn % 256, m.pgn / 0x100 % 256, m.pgn / 0x1_0000 % 256];
      var bamId := EncodeId(m.priority, PGN_TP_CM, src) + BROADCAST * 0x100;
      ok := CanSend(CanFrame(bamId, true, bam));
    }

    /** The packets, until the bus fails. */
    method SendPackets(m: Message, numPackets: nat) returns (ok: bool)
      requires numPackets <= 255
      modifies this
      ensures var all := Segments(m, src, numPackets);
        && ok == (old(credit) >= |all|)
        && tx == old(tx) + (if ok then all else all[..old(credit)])
        && credit == if ok then old(credit) - |all| else 0
    {
      var dtBase := EncodeId(m.priority, PGN_TP_DT, src) + BROADCAST * 0x100;
      ghost var all := Segments(m, src, numPackets);
      for q := 1 to numPackets + 1
        invariant old(credit) == credit + q - 1
        invariant tx == old(tx) + all[..q - 1]
      {
        var pkt := FillPacket(m, q);
        ok := CanSend(CanFrame(dtBase, true, pkt[..]));
        if !ok {
          return;
        }
        assert all[..q] == all[..q - 1] + [Segment(m, src, q)];
      }
      assert all[..numPackets] == all;
      return true;
    }

    method SendTp(m: Message) returns (r: Result<(), Error>)
      modifies this
      ensures var (outcome, sent) := SendTpOf(m, src, old(credit));
        r == outcome && tx == old(tx) + sent && credit == old(credit) - |sent|
      ensures old(tx) <= tx && TransportOutcome(r, tx[|old(tx)|..], m, src, old(credit))
    {
      SendTpDoes(m, src, credit);
      var n := |m.data|;
      if n < 9 {
        return Err(InvalidArgument);
      }
      if n > MAX_DATA {
        return Err(PayloadTooLarge);
      }
      var ok := SendAnnouncement(m);
      if !ok {
        return Err(BusError);
      }
      ok := SendPackets(m, (n + 7 - 1) / 7);
      r := if ok then Ok(()) else Err(BusError);
    }

    /** Bus::send: what fits one frame goes out in one, anything longer by transport. */
    method Send(m: Message) returns (r: Result<(), Error>)
      modifies this
      ensures |m.data| > 8 ==>
        var (outcome, sent) := SendTpOf(m, src, old(credit));
        r == outcome && tx == old(tx) + sent && credit == old(credit) - |sent|
      ensures |m.data| > 8 ==> old(tx) <= tx && TransportOutcome(r, tx[|old(tx)|..], m, src, old(credit))
      ensures |m.data| <= 8 ==>
        if old(credit) == 0 then r == Err(BusError) && tx == old(tx)
        else r == Ok(()) && tx == old(tx) + [SingleFrame(m, src)] && credit == old(credit) - 1
      ensures |m.data| <= 8 && old(credit) > 0 ==> |tx| == |old(tx)| + 1 && IsSingleFrame(tx[|tx| - 1], m, src)
    {
      if |m.data| > 8 {
        r := SendTp(m);
        return;
      }
      var id := EncodeId(m.priority, m.pgn, src);
      if IsPeerToPeer(m.pgn) {
        id := id + m.dst * 0x100;
      }
      SingleFrameOctets(m, src);
      var ok := CanSend(CanFrame(id, true, m.data));
      r := if ok then Ok(()) else Err(BusError);
    }
  }

  // ---------------------------------------------------------------- the session table

  datatype Session = Session(
    totalSize: nat,
    numPackets: nat,
    pgn: uint32,
    priority: byte,
    src: byte,
    buf: seq<byte>,
    seen: seq<bool>,
    received: nat,
    lastSeen: int)

  type Table = map<byte, Session>

  predicate Expired(s: Session, now: int) { now - s.lastSeen > SESSION_TIMEOUT }

  function Swept(t: Table, now: int): Table {
    map k | k in t && !Expired(t[k], now) :: t[k]
  }

  function AnnouncedSize(data: seq<byte>): nat
    requires |data| >= 8
  {
    SizeOf(data[1], data[2])
  }

  function SizeOf(lo: nat, hi: nat): nat { lo + 256 * hi }

  function PgnOf(b0: nat, b1: nat, b2: nat): nat { b0 + 0x100 * b1 + 0x1_0000 * b2 }

  /** Whether a connection management frame opens a session. */
  predicate Opens(data: seq<byte>) {
    && |data| >= 8 && data[0] == BAM_CONTROL
    && MIN_DATA <= AnnouncedSize(data) <= MAX_DATA
    && data[3] > 0
  }

  function NewSession(id: DecodedId, data: seq<byte>, now: int): Session
    requires Opens(data)
  {
    var total := AnnouncedSize(data);
    Session(total, data[3], PgnOf(data[5], data[6], data[7]), id.priority, id.src,
            seq(total, _ => 0), seq(data[3], _ => false), 0, now)
  }

  /** A packet's seven octets laid over the buffer; those past its end are dropped. */
  function Overlay(buf: seq<byte>, q: nat, data: seq<byte>): (b: seq<byte>)
    requires q >= 1 && |data| >= 8
    ensures |b| == |buf|
  {
    seq(|buf|, i requires 0 <= i < |buf| =>
      if 7 * (q - 1) <= i < 7 * q then data[i - 7 * (q - 1) + 1] else buf[i])
  }

  /** Whether a data transfer frame is a new segment of the session. */
  predicate Fills(s: Session, data: seq<byte>) {
    && |data| >= 8 && 1 <= data[0] <= s.numPackets
    && |s.seen| == s.numPackets && !s.seen[data[0] - 1]
  }

  function WithSegment(s: Session, data: seq<byte>, now: int): Session
    requires Fills(s, data)
  {
    s.(seen := s.seen[data[0] - 1 := true], lastSeen := now,
       buf := Overlay(s.buf, data[0], data), received := s.received + 1)
  }

  function Offer(s: Session): Message { Message(s.priority, s.pgn, s.src, BROADCAST, s.buf) }

  /** One turn of the receiving thread: the table and the message offered, if any. */
  function Turn(t: Table, filter: seq<uint32>, now: int, cf: CanFrame): (Table, Option<Message>) {
    if !cf.ext then (t, None)
    else
      var id := DecodeId(cf.id);
      var live := Swept(t, now);
      if id.pgn == PGN_TP_CM then
        if Opens(cf.data) && (id.src in live || |live| < MAX_SESSIONS)
        then (live[id.src := NewSession(id, cf.data, now)], None)
        else (live, None)
      else if id.pgn == PGN_TP_DT && id.src in live && Fills(live[id.src], cf.data) then
        var s := WithSegment(live[id.src], cf.data, now);
        if s.received == s.numPackets
        then (live - {id.src}, if MatchesPgns(s.pgn, filter) then Some(Offer(s)) else None)
        else (live[id.src := s], None)
      else (live, None)
  }

  class Subscriber {
    const filter: seq<uint32>
    var sessions: Table

    constructor (filter: seq<uint32>)
      ensures this.filter == filter && sessions == map[]
    {
      this.filter, sessions := filter, map[];
    }

    /** The sweep: erases while it iterates, in whatever order the table yields. */
    method SweepExpired(now: int)
      modifies this
      ensures sessions == Swept(old(sessions), now)
    {
      var todo := sessions.Keys;
      while todo != {}
        invariant todo <= sessions.Keys <= old(sessions).Keys
        invariant forall k :: k in sessions ==> sessions[k] == old(sessions)[k]
        invariant forall k :: k in old(sessions) && k !in todo ==> (k in sessions <==> !Expired(old(sessions)[k], now))
        decreases |todo|
      {
        var k :| k in todo;
        todo := todo - {k};
        if Expired(sessions[k], now) {
          sessions := sessions - {k};
        }
      }
    }

    method CopyOctets(buf0: seq<byte>, q: nat, data: seq<byte>) returns (buf: seq<byte>)
      requires q >= 1 && |data| >= 8
      ensures buf == Overlay(buf0, q, data)
    {
      buf := buf0;
      var offset := (q - 1) * 7;
      for i := 1 to 8
        invariant |buf| == |buf0|
        invariant forall k :: 0 <= k < |buf| ==>
          buf[k] == if offset <= k < offset + i - 1 then data[k - offset + 1] else buf0[k]
      {
        var dst := offset + i - 1;
        if dst < |buf| {
          buf := buf[dst := data[i]];
        }
      }
    }

    method OnFrame(now: int, cf: CanFrame) returns (offered: Option<Message>)
      requires TableOk(sessions)
      modifies this
      ensures (sessions, offered) == Turn(old(sessions), filter, now, cf)
      ensures TableOk(sessions)
    {
      TurnKeepsTable(sessions, filter, now, cf);
      if !cf.ext {
        return None;
      }
      var id := DecodeId(cf.id);
      SweepExpired(now);
      if id.pgn == PGN_TP_CM {
        if |cf.data| < 8 || cf.data[0] != BAM_CONTROL {
          return None;
        }
        var total := SizeOf(cf.data[1], cf.data[2]);
        var np := cf.data[3];
        if total < MIN_DATA || total > MAX_DATA {
          return None;
        }
        if np <= 0 {
          return None;
        }
        var target := PgnOf(cf.data[5], cf.data[6], cf.data[7]);
        if id.src !in sessions && |sessions| >= MAX_SESSIONS {
          return None;
        }
        sessions := sessions[id.src := Session(total, np, target, id.priority, id.src,
                                               seq(total, _ => 0), seq(np, _ => false), 0, now)];
      } else if id.pgn == PGN_TP_DT {
        if id.src !in sessions || |cf.data| < 8 {
          return None;
        }
        var s := sessions[id.src];
        var q := cf.data[0];
        if q < 1 || q > s.numPackets {
          return None;
        }
        if s.seen[q - 1] {
          return None;
        }
        var buf := CopyOctets(s.buf, q, cf.data);
        s := s.(seen := s.seen[q - 1 := true], lastSeen := now, buf := buf, received := s.received + 1);
        sessions := sessions[id.src := s];
        if s.received == s.numPackets {
          var wanted := CheckPgns(s.pgn, filter);
          if wanted {
            offered := Some(Message(s.priority, s.pgn, s.src, BROADCAST, s.buf));
          } else {
            offered := None;
          }
          assert sessions - {id.src} == Swept(old(sessions), now) - {id.src};
          sessions := sessions - {id.src};
          return;
        }
      }
      return None;
    }
  }

  // ---------------------------------------------------------------- the table's invariant

  function CountSeen(seen: seq<bool>): nat {
    if seen == [] then 0 else (if seen[0] then 1 else 0) + CountSeen(seen[1..])
  }

  /** A session as long as it is in the table: sizes as announced, received the number
      of segments seen and short of all, the octets of unseen segments still zero. */
  predicate SessionOk(k: byte, s: Session) {
    && s.src == k
    && MIN_DATA <= s.totalSize <= MAX_DATA && 1 <= s.numPackets <= 255
    && |s.buf| == s.totalSize && |s.seen| == s.numPackets
    && s.received == CountSeen(s.seen) && s.received < s.numPackets
    && (forall i :: 0 <= i < |s.buf| && (i / 7 >= |s.seen| || !s.seen[i / 7]) ==> s.buf[i] == 0)
  }

  ghost predicate TableOk(t: Table) {
    forall k :: k in t ==> SessionOk(k, t[k])
  }

  lemma {:induction false} CountOfUpdate(seen: seq<bool>, i: nat)
    requires i < |seen| && !seen[i]
    ensures CountSeen(seen[i := true]) == CountSeen(seen) + 1
  {
    if i == 0 {
      assert seen[i := true][1..] == seen[1..];
    } else {
      assert seen[i := true][1..] == seen[1..][i - 1 := true];
      CountOfUpdate(seen[1..], i - 1);
    }
  }

  lemma {:induction false} CountBounds(seen: seq<bool>)
    ensures CountSeen(seen) <= |seen|
    ensures CountSeen(seen) == |seen| <==> forall i :: 0 <= i < |seen| ==> seen[i]
  {
    if seen != [] {
      CountBounds(seen[1..]);
      assert forall i :: 1 <= i < |seen| ==> seen[i] == seen[1..][i - 1];
    }
  }

  lemma {:induction false} CountOfNone(n: nat)
    ensures CountSeen(seq(n, _ => false)) == 0
  {
    if n > 0 {
      assert seq(n, _ => false)[1..] == seq(n - 1, _ => false);
      CountOfNone(n - 1);
    }
  }

  lemma NewSessionOk(id: DecodedId, data: seq<byte>, now: int)
    requires Opens(data)
    ensures SessionOk(id.src, NewSession(id, data, now))
  {
    CountOfNone(data[3]);
  }

  lemma WithSegmentOk(k: byte, s: Session, data: seq<byte>, now: int)
    requires SessionOk(k, s) && Fills(s, data)
    ensures var s' := WithSegment(s, data, now);
      s'.received <= s'.numPackets && (s'.received < s'.numPackets ==> SessionOk(k, s'))
  {
    CountOfUpdate(s.seen, data[0] - 1);
    CountBounds(s.seen[data[0] - 1 := true]);
  }

  /** Every turn keeps the table's invariant. */
  lemma TurnKeepsTable(t: Table, filter: seq<uint32>, now: int, cf: CanFrame)
    requires TableOk(t)
    ensures TableOk(Turn(t, filter, now, cf).0)
  {
    var id := DecodeId(cf.id);
    var live := Swept(t, now);
    if cf.ext && id.pgn == PGN_TP_CM && Opens(cf.data) {
      NewSessionOk(id, cf.data, now);
    }
    if cf.ext && id.pgn == PGN_TP_DT && id.src in live && Fills(live[id.src], cf.data) {
      WithSegmentOk(id.src, live[id.src], cf.data, now);
    }
  }

  // ---------------------------------------------------------------- the session cap

  lemma {:induction false} BytesBelow(n: nat, s: set<byte>)
    requires n <= 256 && forall k :: k in s ==> k < n
    ensures |s| <= n
  {
    if n == 0 {
      assert s == {};
    } else {
      var last: byte := n - 1;
      BytesBelow(n - 1, s - {last});
      assert s <= (s - {last}) + {last};
    }
  }

  /** The cap of 256 sessions never turns an announcement away: the table's keys are
      octets, so a full table already holds a session of every source. */
  lemma CapNeverRejects(t: Table, src: byte)
    ensures src in t || |t| < MAX_SESSIONS
  {
    if src !in t {
      var s := t.Keys + {src};
      BytesBelow(256, s);
      assert |s| == |t.Keys| + 1 && |t.Keys| == |t|;
    }
  }
}
