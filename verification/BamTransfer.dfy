/** From send_tp to subscribe_tp (src/j1939/pgn.cpp): what becomes of the frames one call puts on
    the bus when they arrive in time, and the constants of the session table. */
module BamTransfer {
  import opened Bytes
  import opened J1939
  import opened Bam
  import opened BamReassembly

  /** The frames, each at its time. */
  function Timed(frames: seq<CanFrame>, times: seq<int>): (events: seq<Event>)
    requires |frames| == |times|
    ensures |events| == |frames|
  {
    seq(|frames|, i requires 0 <= i < |frames| => Event(times[i], frames[i]))
  }

  /** No frame comes more than 750 ms after the one before. */
  predicate InTime(times: seq<int>) {
    forall i :: 0 < i < |times| ==> times[i] - times[i - 1] <= 750_000_000
  }

  /** The packets from number k + 1 on, at their times. */
  predicate IsTail(events: seq<Event>, m: Message, s: byte, k: nat) {
    && k + |events| == Packets(|m.data|) <= 255
    && forall i :: 0 <= i < |events| ==> events[i].cf == Segment(m, s, k + 1 + i)
  }

  lemma TailSegment(events: seq<Event>, m: Message, s: byte, k: nat, i: nat)
    requires IsTail(events, m, s, k) && i < |events|
    ensures var cf := events[i].cf;
      |cf.data| >= 1 && cf.data[0] == k + 1 + i && IsSegment(m, s, cf, k + 1 + i) && cf.ext
    ensures SegmentIn(m, s, events[i].cf) == {k + 1 + i}
  {
  }

  lemma {:induction false} TailHeard(events: seq<Event>, m: Message, s: byte, k: nat, n: nat)
    requires IsTail(events, m, s, k) && n <= |events|
    ensures UpTo(k) + HeardIn(m, s, events[..n]) == UpTo(k + n)
    decreases n
  {
    if n > 0 {
      TailHeard(events, m, s, k, n - 1);
      PrefixSnoc(events, n - 1);
      HeardConcat(m, s, events[..n - 1], [events[n - 1]]);
      HeardOne(m, s, events[n - 1]);
      TailSegment(events, m, s, k, n - 1);
      UnionAssociates(UpTo(k), HeardIn(m, s, events[..n - 1]), {k + n});
    }
  }

  lemma HeardOne(m: Message, s: byte, e: Event)
    ensures HeardIn(m, s, [e]) == SegmentIn(m, s, e.cf)
  {
    assert [e][1..] == [];
    assert HeardIn(m, s, []) == {};
  }

  lemma UpToGrows(k: nat, n: nat)
    requires k < n
    ensures UpTo(k) != UpTo(n)
  {
    assert n in UpTo(n) && n !in UpTo(k);
  }

  lemma HeardSoFar(events: seq<Event>, m: Message, s: byte, n: nat)
    requires IsTail(events, m, s, 0) && n <= |events|
    ensures HeardIn(m, s, events[..n]) == UpTo(n)
  {
    TailHeard(events, m, s, 0, n);
    assert UpTo(0) + HeardIn(m, s, events[..n]) == HeardIn(m, s, events[..n]);
  }

  lemma NotYet(n: nat, all: nat)
    requires n <= all
    ensures UpTo(n) == UpTo(all) <==> n == all
  {
    if n < all {
      UpToGrows(n, all);
    }
  }

  /** The transfer is complete with its last packet, and not before. */
  lemma CompletesLast(events: seq<Event>, m: Message, s: byte, i: nat)
    requires IsTail(events, m, s, 0) && i < |events|
    ensures CompletesAt(m, s, events, i) <==> i == |events| - 1
  {
    HeardSoFar(events, m, s, i);
    HeardSoFar(events, m, s, i + 1);
    NotYet(i, |events|);
    NotYet(i + 1, |events|);
  }

  /** One packet in its turn and in time. */
  lemma TailStep(e: Event, m: Message, s: byte, k: nat, last: int)
    requires k + 1 <= Packets(|m.data|) <= 255 && e.cf == Segment(m, s, k + 1) && e.now - last <= 750_000_000
    ensures !Stale(Open(UpTo(k), last), e)
    ensures BamReassembly.After(m, s, Open(UpTo(k), last), e)
         == if k + 1 == Packets(|m.data|) then Gone else Open(UpTo(k + 1), e.now)
  {
    assert UpTo(k + 1) == UpTo(k) + {k + 1};
    assert NewSegment(m, s, UpTo(k), e.cf) == Some(k + 1);
    NotYet(k + 1, Packets(|m.data|));
  }

  predicate Paced(events: seq<Event>, last: int)
    decreases |events|
  {
    events == [] || (events[0].now - last <= 750_000_000 && Paced(events[1..], events[0].now))
  }

  lemma {:induction false} TailNeverStale(events: seq<Event>, m: Message, s: byte, k: nat, last: int)
    requires IsTail(events, m, s, k) && Paced(events, last)
    ensures NeverStale(m, s, Open(UpTo(k), last), events)
    decreases |events|
  {
    if events != [] {
      TailStep(events[0], m, s, k, last);
      if |events| > 1 {
        TailOfTail(events, m, s, k);
        TailNeverStale(events[1..], m, s, k + 1, events[0].now);
      }
    }
  }

  lemma TailOfTail(events: seq<Event>, m: Message, s: byte, k: nat)
    requires IsTail(events, m, s, k) && events != []
    ensures IsTail(events[1..], m, s, k + 1)
  {
    forall i | 0 <= i < |events| - 1 ensures events[1..][i].cf == Segment(m, s, k + 2 + i) {
      assert events[1..][i] == events[i + 1];
    }
  }

  lemma {:induction false} TimedIsPaced(frames: seq<CanFrame>, times: seq<int>, i: nat)
    requires |frames| == |times| && InTime(times) && 1 <= i <= |times|
    ensures Paced(Timed(frames, times)[i..], times[i - 1])
    decreases |times| - i
  {
    if i < |times| {
      TimedIsPaced(frames, times, i + 1);
      var events := Timed(frames, times);
      assert events[i..][1..] == events[i + 1..];
    }
  }

  /** The frames send_tp puts on a bus that takes them all. */
  lemma SentFrames(m: Message, s: byte, credit: nat)
    requires 9 <= |m.data| <= 1785 && credit > (|m.data| + 6) / 7
    ensures var sent := SendTpOf(m, s, credit).1;
      && SendTpOf(m, s, credit).0 == Ok(()) && |sent| == 1 + Packets(|m.data|) <= 256
      && sent[0] == Announcement(m, s)
      && forall q :: 1 <= q <= Packets(|m.data|) ==> sent[q] == Segment(m, s, q)
  {
  }

  /** Whatever the table holds, the frames of one call of send_tp, arriving in order and none
      more than 750 ms after the one before, make subscribe_tp offer exactly one message from
      their source, with the last of them: the one sent, its priority modulo 8 and its group
      modulo 2^24, if the subscriber's filter asks for that group. */
  lemma TransferArrives(
    t: Table, filter: seq<uint32>, m: Message, s: byte, credit: nat, times: seq<int>, i: nat)
    requires TableOk(t) && 9 <= |m.data| <= 1785 && credit > (|m.data| + 6) / 7
    requires |times| == |SendTpOf(m, s, credit).1| && InTime(times) && i < |times|
    ensures |times| == 1 + (|m.data| + 6) / 7
    ensures var offer := Offers(t, filter, Timed(SendTpOf(m, s, credit).1, times))[i];
      if i == |times| - 1 && (filter == [] || m.pgn % 16777216 in filter)
      then offer == Some(Message(m.priority % 8, m.pgn % 16777216, s, 255, m.data))
      else !(offer.Some? && offer.value.src == s)
  {
    SentFrames(m, s, credit);
    var frames := SendTpOf(m, s, credit).1;
    var rest := Timed(frames, times)[1..];
    SentTail(frames, times, m, s);
    TimedIsPaced(frames, times, 1);
    TailArrives(t, filter, m, s, times[0], rest);
    if i > 0 {
      CompletesLast(rest, m, s, i - 1);
      assert OfferRight(filter, m, s, rest, i - 1, Offers(t, filter, Timed(frames, times)));
    }
  }

  lemma SentTail(frames: seq<CanFrame>, times: seq<int>, m: Message, s: byte)
    requires |frames| == |times| == 1 + Packets(|m.data|) <= 256 && frames[0] == Announcement(m, s)
    requires forall q :: 1 <= q <= Packets(|m.data|) ==> frames[q] == Segment(m, s, q)
    ensures IsTail(Timed(frames, times)[1..], m, s, 0)
    ensures Timed(frames, times) == [Event(times[0], Announcement(m, s))] + Timed(frames, times)[1..]
  {
    var rest := Timed(frames, times)[1..];
    forall j | 0 <= j < |rest| ensures rest[j].cf == Segment(m, s, 1 + j) {
      assert rest[j] == Timed(frames, times)[j + 1];
    }
  }

  lemma TailArrives(t: Table, filter: seq<uint32>, m: Message, s: byte, t0: int, rest: seq<Event>)
    requires TableOk(t) && 9 <= |m.data| <= 1785 && IsTail(rest, m, s, 0) && Paced(rest, t0)
    ensures var o := Offers(t, filter, [Event(t0, Announcement(m, s))] + rest);
      o[0].None? && forall i :: 0 <= i < |rest| ==> OfferRight(filter, m, s, rest, i, o)
  {
    forall i | 0 <= i < |rest| ensures Admissible(m, s, rest[i].cf) {
      TailSegment(rest, m, s, 0, i);
    }
    TailNeverStale(rest, m, s, 0, t0);
    assert UpTo(0) == {};
    EveryArrivalOrderReassembles(t, filter, m, s, t0, rest);
  }

  // ---------------------------------------------------------------- the table's constants

  /** What opens a session, and when one has been silent too long, by numbers. */
  lemma SessionLimits(data: seq<byte>, sess: Session, now: int)
    ensures Opens(data) <==>
      |data| >= 8 && data[0] == 0x20 && 9 <= data[1] as int + 256 * data[2] as int <= 1785 && data[3] > 0
    ensures Expired(sess, now) <==> now - sess.lastSeen > 750_000_000
  {
  }
}
