/** send against whatever the bus brings: the frames it puts out are those of its payload, in
    order, cut where it gives up, and all of them if it succeeds. */
module IsoTpSend {
  import opened Bytes
  import opened IsoTp
  import opened IsoTpLink

  /** The frames of a segmented payload. */
  function Segmented(payload: seq<byte>): seq<pdu>
    requires |payload| >= 8
  {
    [FirstFrame(payload)] + Cfs(payload, 0, CfCount(payload))
  }

  /** The sender after its First Frame and i consecutive frames, whatever it has heard. */
  predicate SentSoFar(payload: seq<byte>, s: Sender, i: nat) {
    var m := CfCount(payload);
    i <= m &&
    match s
    case SSingle => false
    case SFirst => false
    case SAwaitFirst => i == 0
    case SEmit(offset, sn, _, _) => i < m && offset == 6 + 7 * i && sn == (i + 1) % 256
    case SAwaitAfterWait(offset, sn) => i < m && offset == 6 + 7 * i && sn == (i + 1) % 256
    case SAwaitBlock(offset, sn) => offset == Carried(payload, i) && sn == (i + 1) % 256
    case SDone(o) => o.Ok? ==> i == m
  }

  lemma TurnAfter(payload: seq<byte>, i: nat, blockCount: nat, grant: Grant)
    requires |payload| >= 8 && i <= CfCount(payload)
    ensures SentSoFar(payload, Turn(payload, Carried(payload, i), (i + 1) % 256, blockCount, grant), i)
  {
    CarriedLast(payload, i);
  }

  /** What the sender emits is the next frame, whatever blocks it counts. */
  lemma EmitAfter(payload: seq<byte>, s: Sender, i: nat)
    requires 8 <= |payload| <= MAX_PAYLOAD && SentSoFar(payload, s, i) && s.SEmit?
    ensures SenderFits(payload, s) && Emitted(payload, s) == Cf(payload, i + 1)
    ensures SentSoFar(payload, AfterEmit(payload, s), i + 1)
  {
    NextOffset(payload, i);
    NextSn(i);
    TurnAfter(payload, i + 1, s.blockCount + 1, s.grant);
  }

  /** Nothing it hears makes it skip or repeat a frame. */
  lemma HearAfter(payload: seq<byte>, s: Sender, e: Event, i: nat)
    requires 8 <= |payload| <= MAX_PAYLOAD && SentSoFar(payload, s, i) && Listens(s) && SenderFits(payload, s)
    ensures SentSoFar(payload, SenderHears(payload, s, e), i)
  {
    if e.Arrived? && IsFlowControl(e.data) {
      TurnAfter(payload, i, 0, ReadGrant(e.data));
    }
  }

  /** c sent a beginning of these frames, all of them if it succeeded. */
  predicate SendsOf(c: Call<()>, frames: seq<pdu>, credit: nat) {
    c.sent <= frames && (c.outcome.Ok? ==> c.sent == frames) && c.credit + |c.sent| == credit
  }

  lemma SendsCons(c: Call<()>, d: pdu, frames: seq<pdu>, credit: nat)
    requires SendsOf(c, frames, credit)
    ensures SendsOf(Prepend([d], c), [d] + frames, credit + 1)
  {
  }

  lemma CfsCons(payload: seq<byte>, i: nat)
    requires i < CfCount(payload)
    ensures Cfs(payload, i, CfCount(payload)) == [Cf(payload, i + 1)] + Cfs(payload, i + 1, CfCount(payload))
  {
  }

  lemma {:induction false} SendsOnwards(payload: seq<byte>, s: Sender, rx: seq<Event>, credit: nat, i: nat)
    requires 8 <= |payload| <= MAX_PAYLOAD && SenderFits(payload, s) && SentSoFar(payload, s, i)
    ensures SendsOf(RunSender(payload, s, rx, credit), Cfs(payload, i, CfCount(payload)), credit)
    decreases Remaining(payload, s), |rx|
  {
    if s.SEmit? {
      if credit > 0 {
        EmitAfter(payload, s, i);
        SendsOnwards(payload, AfterEmit(payload, s), rx, credit - 1, i + 1);
        CfsCons(payload, i);
        SendsCons(RunSender(payload, AfterEmit(payload, s), rx, credit - 1), Cf(payload, i + 1),
                  Cfs(payload, i + 1, CfCount(payload)), credit - 1);
      }
    } else if Listens(s) && rx != [] {
      HearAfter(payload, s, rx[0], i);
      SendsOnwards(payload, SenderHears(payload, s, rx[0]), rx[1..], credit, i);
    }
  }

  /** For every stream of events, WAIT, late overflow and stray frames included, and every bus:
      send puts out a beginning of its payload's frames, which is what it uses of the bus, and
      all of them if it succeeds. */
  lemma SendsInOrder(payload: seq<byte>, rx: seq<Event>, credit: nat)
    requires 8 <= |payload| <= MAX_PAYLOAD
    ensures SendsOf(RunSender(payload, SenderStart(payload), rx, credit), Segmented(payload), credit)
  {
    assert SenderStart(payload) == SFirst;
    if credit > 0 {
      SendsOnwards(payload, SAwaitFirst, rx, credit - 1, 0);
      SendsCons(RunSender(payload, SAwaitFirst, rx, credit - 1), FirstFrame(payload),
                Cfs(payload, 0, CfCount(payload)), credit - 1);
    }
  }

  // ---------------------------------------------------------------- exactly how far it gets

  /** A flow control by its octets. */
  predicate IsAnswer(d: pdu) { |d| >= 3 && d[0] / 16 == 3 }

  /** The flow controls heard before the first timeout or the end of the channel. */
  function Answers(rx: seq<Event>): seq<pdu> {
    if rx == [] || !rx[0].Arrived? then []
    else (if IsAnswer(rx[0].data) then [rx[0].data] else []) + Answers(rx[1..])
  }

  /** What ends the wait for one more. */
  function Ending(rx: seq<Event>): Error {
    if rx == [] || rx[0].TimedOut? then TimedOutError
    else if rx[0].Closed? then ConnectionAborted
    else Ending(rx[1..])
  }

  /** How many frames the answers let out, and whether the sender waits for no more. */
  datatype Plan = Plan(frames: nat, enough: bool)

  function Plus(n: nat, p: Plan): Plan { Plan(n + p.frames, p.enough) }

  /** How many of left frames go out under an answer of this status and block size, done of
      them having gone: one if it says wait, else what is left of the block, or all. */
  function Allowed(status: nat, blockSize: nat, done: nat, left: nat): nat {
    if status == 1 then Min(1, left)
    else if blockSize == 0 then left
    else if blockSize <= done then 0 else Min(blockSize - done, left)
  }

  /** What an answer comes to with those after it. A full block asks for another answer, even
      behind the last frame; an answer that says wait asks again after its one frame. */
  function Released(status: nat, blockSize: nat, done: nat, rest: seq<pdu>, left: nat): Plan
    decreases |rest|, 1
  {
    var n := Allowed(status, blockSize, done, left);
    var full := blockSize > 0 && done + n >= blockSize;
    if n == left && !full then Plan(n, true) else Plus(n, Planned(rest, !full, left - n))
  }

  /** What a sender with left frames to go does with the answers. One that says wait is put
      aside for the next, unless it was itself asked for by one that said wait. */
  function Planned(answers: seq<pdu>, again: bool, left: nat): Plan
    decreases |answers|, 0
  {
    if answers == [] then Plan(0, false)
    else if left == 0 then Plan(0, true)
    else
      var d := answers[0];
      if |d| < 3 then Plan(0, false)
      else if d[0] % 16 == 1 && !again then Planned(answers[1..], true, left)
      else Released(d[0] % 16, d[1], 0, answers[1..], left)
  }

  /** The plan of a sender between its First Frame and its end, left frames to go. */
  function PlanOf(s: Sender, answers: seq<pdu>, left: nat): Plan {
    match s
    case SEmit(_, _, done, g) => Released(g.status, g.blockSize, done, answers, left)
    case SAwaitAfterWait(_, _) => Planned(answers, true, left)
    case SAwaitBlock(_, _) => Planned(answers, false, left)
    case _ => Plan(0, true)
  }

  /** A block under way is not full, and a frame under a wait is its first. */
  predicate InBlock(s: Sender) {
    s.SEmit? ==>
      && (s.grant.blockSize == 0 || s.blockCount < s.grant.blockSize)
      && (s.grant.status == 1 ==> s.blockCount == 0)
  }

  /** A call that follows its plan: as far as the bus lets it. */
  predicate FollowsPlan(c: Call<()>, p: Plan, ending: Error, credit: nat) {
    if credit < p.frames then c.outcome == Err(BusError) && |c.sent| == credit
    else |c.sent| == p.frames && c.outcome == if p.enough then Ok(()) else Err(ending)
  }

  predicate Underway(s: Sender) {
    s.SEmit? || s.SAwaitAfterWait? || s.SAwaitBlock? || (s.SDone? && s.outcome == Ok(()))
  }

  /** One frame emitted is one frame less of the plan. */
  lemma EmitPlan(payload: seq<byte>, s: Sender, answers: seq<pdu>, i: nat)
    requires 8 <= |payload| <= MAX_PAYLOAD && SentSoFar(payload, s, i) && s.SEmit? && InBlock(s)
    ensures SenderFits(payload, s)
    ensures var s', m := AfterEmit(payload, s), CfCount(payload);
      && Underway(s') && InBlock(s')
      && PlanOf(s, answers, m - i) == Plus(1, PlanOf(s', answers, m - i - 1))
  {
    NextOffset(payload, i);
    CarriedLast(payload, i + 1);
  }

  lemma TurnPlan(payload: seq<byte>, i: nat, d: pdu, answers: seq<pdu>)
    requires |payload| >= 8 && i <= CfCount(payload) && IsAnswer(d)
    ensures var s := Turn(payload, Carried(payload, i), (i + 1) % 256, 0, ReadGrant(d));
      && Underway(s) && InBlock(s)
      && PlanOf(s, answers, CfCount(payload) - i) == Planned([d] + answers, false, CfCount(payload) - i)
  {
    CarriedLast(payload, i);
    assert ([d] + answers)[1..] == answers;
  }

  /** A flow control heard is the next answer of the plan; anything else changes nothing. */
  lemma HearPlan(payload: seq<byte>, s: Sender, d: pdu, answers: seq<pdu>, i: nat)
    requires 8 <= |payload| <= MAX_PAYLOAD && SentSoFar(payload, s, i) && SenderFits(payload, s)
    requires (s.SAwaitBlock? || s.SAwaitAfterWait?) && IsAnswer(d)
    ensures var s', m := SenderHears(payload, s, Arrived(d)), CfCount(payload);
      Underway(s') && InBlock(s') && PlanOf(s', answers, m - i) == PlanOf(s, [d] + answers, m - i)
  {
    if s.SAwaitBlock? {
      TurnPlan(payload, i, d, answers);
    } else {
      assert ([d] + answers)[1..] == answers;
    }
  }

  lemma PlusFollows(c: Call<()>, d: pdu, p: Plan, ending: Error, credit: nat)
    requires FollowsPlan(c, p, ending, credit)
    ensures FollowsPlan(Prepend([d], c), Plus(1, p), ending, credit + 1)
  {
  }

  lemma AnswersStep(rx: seq<Event>)
    requires rx != [] && rx[0].Arrived?
    ensures Answers(rx) == if IsAnswer(rx[0].data) then [rx[0].data] + Answers(rx[1..]) else Answers(rx[1..])
    ensures Ending(rx) == Ending(rx[1..])
  {
  }

  lemma {:induction false} CallFollows(payload: seq<byte>, s: Sender, rx: seq<Event>, credit: nat, i: nat)
    requires 8 <= |payload| <= MAX_PAYLOAD && SenderFits(payload, s) && SentSoFar(payload, s, i)
    requires Underway(s) && InBlock(s)
    ensures var c, plan := RunSender(payload, s, rx, credit), PlanOf(s, Answers(rx), CfCount(payload) - i);
      FollowsPlan(c, plan, Ending(rx), credit)
    decreases Remaining(payload, s), |rx|
  {
    if s.SEmit? {
      EmitAfter(payload, s, i);
      EmitPlan(payload, s, Answers(rx), i);
      if credit > 0 {
        CallFollows(payload, AfterEmit(payload, s), rx, credit - 1, i + 1);
        PlusFollows(RunSender(payload, AfterEmit(payload, s), rx, credit - 1), Emitted(payload, s),
                    PlanOf(AfterEmit(payload, s), Answers(rx), CfCount(payload) - i - 1), Ending(rx), credit - 1);
      }
    } else if !s.SDone? && rx != [] && rx[0].Arrived? {
      AnswersStep(rx);
      HearAfter(payload, s, rx[0], i);
      if IsAnswer(rx[0].data) {
        HearPlan(payload, s, rx[0].data, Answers(rx[1..]), i);
      }
      CallFollows(payload, SenderHears(payload, s, rx[0]), rx[1..], credit, i);
    } else if !s.SDone? {
      WaitEnds(payload, s, rx, credit);
    }
  }

  lemma WaitEnds(payload: seq<byte>, s: Sender, rx: seq<Event>, credit: nat)
    requires SenderFits(payload, s) && Listens(s) && (rx == [] || !rx[0].Arrived?)
    ensures var c := RunSender(payload, s, rx, credit); c.outcome == Err(Ending(rx)) && c.sent == []
    ensures Answers(rx) == []
  {
    if rx != [] {
      assert SenderHears(payload, s, rx[0]) == SDone(Err(Ending(rx)));
      assert RunSender(payload, SDone(Err(Ending(rx))), rx[1..], credit)
        == Call(Err(Ending(rx)), [], rx[1..], credit);
    }
  }

  // ---------------------------------------------------------------- whole calls

  /** What a call of send comes to, told from its payload, the octets heard and the bus. */
  ghost predicate SendOutcome(c: Call<()>, payload: seq<byte>, rx: seq<Event>, credit: nat) {
    var n, answers := |payload|, Answers(rx);
    if n == 0 then c.outcome == Err(InvalidArgument) && c.sent == []
    else if n > 4095 then c.outcome == Err(PayloadTooLarge) && c.sent == []
    else if credit == 0 then c.outcome == Err(BusError) && c.sent == []
    else if n <= 7 then c.outcome == Ok(()) && |c.sent| == 1
    else if answers == [] then c.outcome == Err(Ending(rx)) && |c.sent| == 1
    else if |answers[0]| >= 1 && answers[0][0] % 16 == 2 then c.outcome == Err(NoBufferSpace) && |c.sent| == 1
    else FollowsPlan(c, Plus(1, Planned(answers, false, n / 7)), Ending(rx), credit)
  }

  /** The k-th frame of a payload by its octets. */
  predicate IsFrameOf(d: pdu, payload: seq<byte>, k: nat) {
    var n := |payload|;
    if n <= 7 then k == 0 && d == [n] + payload
    else if k == 0 then n <= 4095 && d == [16 + n / 256, n % 256] + payload[..6]
    else 6 + 7 * (k - 1) < n && d == [32 + k % 16] + payload[6 + 7 * (k - 1)..Min(6 + 7 * k, n)]
  }

  lemma {:induction false} AnswersCome(payload: seq<byte>, rx: seq<Event>, credit: nat)
    requires 8 <= |payload| <= MAX_PAYLOAD
    ensures var c, answers := RunSender(payload, SAwaitFirst, rx, credit), Answers(rx);
      if answers == [] then c.outcome == Err(Ending(rx)) && c.sent == []
      else if |answers[0]| >= 1 && answers[0][0] % 16 == 2 then c.outcome == Err(NoBufferSpace) && c.sent == []
      else FollowsPlan(c, Planned(answers, false, CfCount(payload)), Ending(rx), credit)
    decreases |rx|
  {
    if rx != [] && rx[0].Arrived? {
      var d := rx[0].data;
      AnswersStep(rx);
      if !IsAnswer(d) {
        AnswersCome(payload, rx[1..], credit);
      } else if d[0] % 16 != 2 {
        FirstAnswer(payload, d, rx[1..], credit);
      }
    } else {
      WaitEnds(payload, SAwaitFirst, rx, credit);
    }
  }

  lemma FirstAnswer(payload: seq<byte>, d: pdu, rest: seq<Event>, credit: nat)
    requires 8 <= |payload| <= MAX_PAYLOAD && IsAnswer(d) && d[0] % 16 != 2
    ensures var s := SenderHears(payload, SAwaitFirst, Arrived(d));
      FollowsPlan(RunSender(payload, s, rest, credit), Planned([d] + Answers(rest), false, CfCount(payload)),
                  Ending(rest), credit)
  {
    TurnPlan(payload, 0, d, Answers(rest));
    TurnAfter(payload, 0, 0, ReadGrant(d));
    CallFollows(payload, SenderHears(payload, SAwaitFirst, Arrived(d)), rest, credit, 0);
  }

  lemma {:induction false} CfsAreFrames(payload: seq<byte>, i: nat, j: nat)
    requires 8 <= |payload| <= 4095 && i + j < CfCount(payload)
    ensures IsFrameOf(Cfs(payload, i, CfCount(payload))[j], payload, i + j + 1)
    decreases j
  {
    CfsCons(payload, i);
    if j == 0 {
      CfIsFrame(payload, i + 1);
    } else {
      CfsAreFrames(payload, i + 1, j - 1);
    }
  }

  lemma CfIsFrame(payload: seq<byte>, k: nat)
    requires 8 <= |payload| && 1 <= k <= CfCount(payload)
    ensures IsFrameOf(Cf(payload, k), payload, k)
  {
    SnOfCf(k, 32 + k % 256 % 16);
    CarriedStep(payload, k);
  }

  lemma SegmentedFrames(payload: seq<byte>, j: nat)
    requires 8 <= |payload| <= 4095 && j < |Segmented(payload)|
    ensures IsFrameOf(Segmented(payload)[j], payload, j)
  {
    if j == 0 {
      assert |payload| / 256 % 16 == |payload| / 256;
    } else {
      CfsAreFrames(payload, 0, j - 1);
    }
  }

  /** Exactly what send does, for every payload, every stream of events and every bus: how it
      ends, how many frames it puts out, and which. */
  lemma SendExactly(payload: seq<byte>, rx: seq<Event>, credit: nat)
    ensures var c := RunSender(payload, SenderStart(payload), rx, credit);
      && SendOutcome(c, payload, rx, credit)
      && c.credit + |c.sent| == credit
      && forall j :: 0 <= j < |c.sent| ==> IsFrameOf(c.sent[j], payload, j)
  {
    if 8 <= |payload| <= 4095 {
      SendsInOrder(payload, rx, credit);
      LongSend(payload, rx, credit);
      forall j | 0 <= j < |RunSender(payload, SenderStart(payload), rx, credit).sent|
        ensures IsFrameOf(RunSender(payload, SenderStart(payload), rx, credit).sent[j], payload, j)
      {
        SegmentedFrames(payload, j);
      }
    } else if 1 <= |payload| <= 7 && credit > 0 {
      assert RunSender(payload, SSingle, rx, credit) == Call(Ok(()), [SingleFrame(payload)], rx, credit - 1);
    }
  }

  lemma LongSend(payload: seq<byte>, rx: seq<Event>, credit: nat)
    requires 8 <= |payload| <= 4095
    ensures SendOutcome(RunSender(payload, SenderStart(payload), rx, credit), payload, rx, credit)
  {
    assert SenderStart(payload) == SFirst;
    if credit > 0 {
      AnswersCome(payload, rx, credit - 1);
      var c, answers := RunSender(payload, SAwaitFirst, rx, credit - 1), Answers(rx);
      if answers != [] && !(|answers[0]| >= 1 && answers[0][0] % 16 == 2) {
        PlusFollows(c, FirstFrame(payload), Planned(answers, false, CfCount(payload)), Ending(rx), credit - 1);
      }
    }
  }

  // ---------------------------------------------------------------- what the plan says of the answers

  /** After a first answer that says wait nothing goes out until one more has come; one that
      says go on, with no block size, then lets everything out. */
  lemma WaitLetsNothingOut(d: pdu, e: pdu, left: nat)
    requires IsAnswer(d) && d[0] % 16 == 1 && left > 0 && IsAnswer(e) && e[0] % 16 != 1 && e[1] == 0
    ensures Planned([d], false, left) == Plan(0, false)
    ensures Planned([d, e], false, left) == Plan(left, true)
  {
    assert [d][1..] == [] && [d, e][1..] == [e] && [e][1..] == [];
    assert Planned([e], true, left) == Released(e[0] % 16, e[1], 0, [], left) == Plan(left, true);
  }
}
