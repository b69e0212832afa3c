/** How runs of the two Conns end: that they can always be brought to rest, what becomes of
    a transfer whose First Frame is overtaken, and the shortest sends that time out. */
module IsoTpRuns {
  import opened Bytes
  import opened IsoTp
  import opened IsoTpLink

  // ---------------------------------------------------------------- coming to rest

  lemma {:induction false} RunConcat(payload: seq<byte>, cfg: Config, l: Link, steps: seq<Step>, more: seq<Step>)
    requires Fits(payload, l) && Run(payload, cfg, l, steps).Some?
    ensures Fits(payload, Run(payload, cfg, l, steps).value)
    ensures Run(payload, cfg, l, steps + more) == Run(payload, cfg, Run(payload, cfg, l, steps).value, more)
    decreases |steps|
  {
    if steps == [] {
      assert steps + more == more;
    } else {
      assert (steps + more)[1..] == steps[1..] + more;
      RunConcat(payload, cfg, After(payload, cfg, l, steps[0]), steps[1..], more);
    }
  }

  /** A step one of the Conns can take, if any. */
  function NextMove(payload: seq<byte>, l: Link): Option<Step> {
    if Emits(l.s) then Some(SenderEmits)
    else if Listens(l.s) && l.fcs != [] then Some(SenderTakes)
    else if l.r.RGrant? then Some(ReceiverGrants)
    else if ReceiverListens(l.r) && l.data != [] then Some(ReceiverTakes)
    else None
  }

  lemma NextMoveMoves(payload: seq<byte>, l: Link)
    ensures NextMove(payload, l).None? ==> Quiescent(payload, l)
    ensures NextMove(payload, l).Some? ==>
      Enabled(payload, l, NextMove(payload, l).value) && !NextMove(payload, l).value.JunkToReceiver?
  {
  }

  lemma RunFirst(payload: seq<byte>, cfg: Config, l: Link, step: Step, rest: seq<Step>)
    requires Fits(payload, l) && Enabled(payload, l, step)
    ensures Run(payload, cfg, l, [step] + rest) == Run(payload, cfg, After(payload, cfg, l, step), rest)
  {
    assert ([step] + rest)[1..] == rest;
  }

  lemma MoveShrinks(payload: seq<byte>, cfg: Config, l: Link, step: Step, i: nat, j: nat)
    returns (next: Link, i': nat, j': nat)
    requires InvAt(payload, cfg, l, i, j) && Enabled(payload, l, step) && !step.JunkToReceiver?
    ensures Fits(payload, l) && next == After(payload, cfg, l, step) && InvAt(payload, cfg, next, i', j')
    ensures ToDo(payload, cfg, next, i', j') < ToDo(payload, cfg, l, i, j)
  {
    next := After(payload, cfg, l, step);
    i', j' := StepKeeps(payload, cfg, l, step, i, j);
    StepShrinks(payload, cfg, l, step, i, j, i', j');
  }

  ghost predicate Calm(steps: seq<Step>) { forall k :: 0 <= k < |steps| ==> !steps[k].JunkToReceiver? }

  /** From every state of the invariant the Conns come to rest by themselves. */
  lemma {:induction false} ComesToRest(payload: seq<byte>, cfg: Config, l: Link, i: nat, j: nat)
    returns (steps: seq<Step>)
    requires InvAt(payload, cfg, l, i, j)
    ensures Fits(payload, l) && Run(payload, cfg, l, steps).Some?
    ensures Quiescent(payload, Run(payload, cfg, l, steps).value)
    ensures Calm(steps)
    decreases ToDo(payload, cfg, l, i, j)
  {
    NextMoveMoves(payload, l);
    var move := NextMove(payload, l);
    if move.None? {
      steps := [];
    } else {
      var next, i1, j1 := MoveShrinks(payload, cfg, l, move.value, i, j);
      var rest := ComesToRest(payload, cfg, next, i1, j1);
      steps := [move.value] + rest;
      RunFirst(payload, cfg, l, move.value, rest);
    }
  }

  lemma {:induction false} NoJunkLeads(steps: seq<Step>)
    requires Calm(steps)
    ensures FirstFrameLeads(steps)
    decreases |steps|
  {
    if steps != [] {
      NoJunkLeads(steps[1..]);
    }
  }

  lemma {:induction false} LeadsOnwards(steps: seq<Step>, more: seq<Step>)
    requires FirstFrameLeads(steps) && FirstFrameLeads(more)
    ensures FirstFrameLeads(steps + more)
    decreases |steps|
  {
    if steps == [] {
      assert steps + more == more;
    } else if !steps[0].SenderEmits? {
      assert (steps + more)[1..] == steps[1..] + more;
      LeadsOnwards(steps[1..], more);
    }
  }

  /** Every run with the First Frame ahead can be carried on until both Conns are at rest. */
  lemma EveryRunCanFinish(payload: seq<byte>, cfg: Config, junk: nat, steps: seq<Step>) returns (more: seq<Step>)
    requires 8 <= |payload| <= MAX_PAYLOAD
    requires Run(payload, cfg, Start(payload, junk), steps).Some? && FirstFrameLeads(steps)
    ensures var o := Run(payload, cfg, Start(payload, junk), steps + more);
      FirstFrameLeads(steps + more) && o.Some? && Quiescent(payload, o.value)
  {
    var l := Start(payload, junk);
    StartInv(payload, cfg, junk);
    var i, j := RunKeeps(payload, cfg, l, steps, 0, 0);
    more := ComesToRest(payload, cfg, Run(payload, cfg, l, steps).value, i, j);
    RunConcat(payload, cfg, l, steps, more);
    NoJunkLeads(more);
    LeadsOnwards(steps, more);
  }

  /** The shortest sends that time out after their payload has arrived: 8 to 13 octets are a
      First Frame and one consecutive frame, which with BlockSize 1 fills a block. Such a run
      exists, and EveryRunDelivers says that every run that comes to rest is one. */
  lemma OneFrameBlockTimesOut(payload: seq<byte>, cfg: Config, junk: nat) returns (steps: seq<Step>)
    requires 8 <= |payload| <= 13 && cfg.blockSize == 1
    ensures EndsOnBlock(payload, cfg) && FirstFrameLeads(steps)
    ensures var o := Run(payload, cfg, Start(payload, junk), steps);
      && o.Some? && Quiescent(payload, o.value)
      && o.value.r == RDone(Ok(payload))
      && Fits(payload, o.value) && Listens(o.value.s)
      && SenderHears(payload, o.value.s, TimedOut) == SDone(Err(TimedOutError))
  {
    steps := EveryRunCanFinish(payload, cfg, junk, []);
    assert [] + steps == steps;
    EveryRunDelivers(payload, cfg, junk, steps);
  }

  // ---------------------------------------------------------------- an overtaken First Frame

  /** An unrelated frame is ahead of the First Frame, or recv has met it. */
  ghost predicate Overtaken(payload: seq<byte>, l: Link) {
    && 8 <= |payload| <= MAX_PAYLOAD && (l.s.SFirst? || l.s.SAwaitFirst?)
    && (if l.r.RIdle? then l.data != [] && !OpensMessage(l.data[0]) else l.r == RDone(Err(BadMessage)))
    && forall k :: 0 <= k < |l.fcs| ==> !IsFlowControl(l.fcs[k])
  }

  lemma OvertakenStays(payload: seq<byte>, cfg: Config, l: Link, step: Step)
    requires Overtaken(payload, l) && Enabled(payload, l, step)
    ensures Fits(payload, l) && Overtaken(payload, After(payload, cfg, l, step))
  {
  }

  lemma {:induction false} OvertakenRuns(payload: seq<byte>, cfg: Config, l: Link, steps: seq<Step>)
    requires Overtaken(payload, l) && Fits(payload, l) && Run(payload, cfg, l, steps).Some?
    ensures Overtaken(payload, Run(payload, cfg, l, steps).value)
    decreases |steps|
  {
    if steps != [] {
      OvertakenStays(payload, cfg, l, steps[0]);
      OvertakenRuns(payload, cfg, After(payload, cfg, l, steps[0]), steps[1..]);
    }
  }

  /** Frames still to be emitted or taken once the First Frame is overtaken. */
  function LeftOver(l: Link): nat { |l.data| + |l.fcs| + if l.s.SFirst? then 2 else 0 }

  lemma OvertakenShrinks(payload: seq<byte>, cfg: Config, l: Link, step: Step)
    requires Overtaken(payload, l) && Enabled(payload, l, step) && !step.JunkToReceiver? && !step.JunkToSender?
    ensures Fits(payload, l) && LeftOver(After(payload, cfg, l, step)) < LeftOver(l)
  {
  }

  /** An overtaken transfer comes to rest as well. */
  lemma {:induction false} OvertakenComesToRest(payload: seq<byte>, cfg: Config, l: Link) returns (steps: seq<Step>)
    requires Overtaken(payload, l)
    ensures Fits(payload, l) && Run(payload, cfg, l, steps).Some?
    ensures Quiescent(payload, Run(payload, cfg, l, steps).value)
    decreases LeftOver(l)
  {
    NextMoveMoves(payload, l);
    var move := NextMove(payload, l);
    if move.None? {
      steps := [];
    } else {
      OvertakenStays(payload, cfg, l, move.value);
      OvertakenShrinks(payload, cfg, l, move.value);
      var rest := OvertakenComesToRest(payload, cfg, After(payload, cfg, l, move.value));
      steps := [move.value] + rest;
      RunFirst(payload, cfg, l, move.value, rest);
    }
  }

  lemma {:induction false} Untouched(q: seq<pdu>, k: nat, wanted: pdu -> bool)
    requires k < |q| && |Keep(q, wanted)| == 0
    ensures !wanted(q[k])
  {
    if k > 0 {
      Untouched(q[1..], k - 1, wanted);
    }
  }

  lemma OvertakingOvertakes(payload: seq<byte>, cfg: Config, l: Link, step: Step, i: nat, j: nat)
    requires InvAt(payload, cfg, l, i, j) && Enabled(payload, l, step) && Overtakes(l, step)
    ensures Fits(payload, l) && Overtaken(payload, After(payload, cfg, l, step))
  {
    forall k | 0 <= k < |l.fcs| ensures !IsFlowControl(l.fcs[k]) {
      Untouched(l.fcs, k, IsFlowControl);
    }
  }

  lemma {:induction false} OvertakingRuns(payload: seq<byte>, cfg: Config, l: Link, steps: seq<Step>, i: nat, j: nat)
    requires InvAt(payload, cfg, l, i, j) && l.s.SFirst? && !FirstFrameLeads(steps)
    requires Fits(payload, l) && Run(payload, cfg, l, steps).Some?
    ensures Overtaken(payload, Run(payload, cfg, l, steps).value)
    decreases |steps|
  {
    var next := After(payload, cfg, l, steps[0]);
    if steps[0].JunkToReceiver? {
      OvertakingOvertakes(payload, cfg, l, steps[0], i, j);
      OvertakenRuns(payload, cfg, next, steps[1..]);
    } else {
      var i1, j1 := StepKeeps(payload, cfg, l, steps[0], i, j);
      OvertakingRuns(payload, cfg, next, steps[1..], i1, j1);
    }
  }

  /** If an unrelated frame gets to the receiver first, recv ends with bad_message, and the
      sender never gets its flow control: it waits and times out. */
  lemma OvertakenRunFails(payload: seq<byte>, cfg: Config, junk: nat, steps: seq<Step>)
    requires 8 <= |payload| <= MAX_PAYLOAD
    requires Run(payload, cfg, Start(payload, junk), steps).Some? && !FirstFrameLeads(steps)
    ensures var l := Run(payload, cfg, Start(payload, junk), steps).value;
      && Fits(payload, l) && !l.s.SDone?
      && (l.r.RDone? ==> l.r == RDone(Err(BadMessage)))
      && (Quiescent(payload, l) ==>
            && l.r == RDone(Err(BadMessage))
            && Listens(l.s) && SenderHears(payload, l.s, TimedOut) == SDone(Err(TimedOutError)))
  {
    StartInv(payload, cfg, junk);
    OvertakingRuns(payload, cfg, Start(payload, junk), steps, 0, 0);
  }

  lemma {:induction false} NeverLeads(steps: seq<Step>, more: seq<Step>)
    requires !FirstFrameLeads(steps)
    ensures !FirstFrameLeads(steps + more)
    decreases |steps|
  {
    assert (steps + more)[0] == steps[0];
    if !steps[0].JunkToReceiver? {
      assert (steps + more)[1..] == steps[1..] + more;
      NeverLeads(steps[1..], more);
    }
  }

  /** Every run in which the First Frame is overtaken can be carried on until both Conns are
      at rest. */
  lemma EveryOvertakenRunCanFinish(payload: seq<byte>, cfg: Config, junk: nat, steps: seq<Step>)
    returns (more: seq<Step>)
    requires 8 <= |payload| <= MAX_PAYLOAD
    requires Run(payload, cfg, Start(payload, junk), steps).Some? && !FirstFrameLeads(steps)
    ensures var o := Run(payload, cfg, Start(payload, junk), steps + more);
      !FirstFrameLeads(steps + more) && o.Some? && Quiescent(payload, o.value)
  {
    var l := Start(payload, junk);
    StartInv(payload, cfg, junk);
    OvertakingRuns(payload, cfg, l, steps, 0, 0);
    more := OvertakenComesToRest(payload, cfg, Run(payload, cfg, l, steps).value);
    RunConcat(payload, cfg, l, steps, more);
    NeverLeads(steps, more);
  }

  /** And there is such a run as soon as one unrelated frame may appear. */
  lemma OvertakenRunExists(payload: seq<byte>, cfg: Config, junk: nat, d: pdu) returns (steps: seq<Step>)
    requires 8 <= |payload| <= MAX_PAYLOAD && junk > 0 && !OpensMessage(d) && !IsConsecutive(d)
    ensures var o := Run(payload, cfg, Start(payload, junk), steps);
      !FirstFrameLeads(steps) && o.Some? && Quiescent(payload, o.value) && o.value.r == RDone(Err(BadMessage))
  {
    var first := [JunkToReceiver(d)];
    assert first[1..] == [];
    var more := EveryOvertakenRunCanFinish(payload, cfg, junk, first);
    steps := first + more;
    OvertakenRunFails(payload, cfg, junk, steps);
  }

  /** So a run that has come to rest has delivered the payload if and only if its First
      Frame got to the receiver first. */
  lemma DeliversExactly(payload: seq<byte>, cfg: Config, junk: nat, steps: seq<Step>)
    requires 8 <= |payload| <= MAX_PAYLOAD && Run(payload, cfg, Start(payload, junk), steps).Some?
    requires Quiescent(payload, Run(payload, cfg, Start(payload, junk), steps).value)
    ensures Run(payload, cfg, Start(payload, junk), steps).value.r == RDone(Ok(payload)) <==> FirstFrameLeads(steps)
  {
    if FirstFrameLeads(steps) {
      EveryRunDelivers(payload, cfg, junk, steps);
    } else {
      OvertakenRunFails(payload, cfg, junk, steps);
    }
  }

  /** The same of recv alone: whatever would follow, a first frame that opens no message
      ends the call with bad_message and is all it consumes. */
  lemma StrayFirstFails(cfg: Config, d: pdu, rx: seq<Event>, credit: nat)
    requires !OpensMessage(d)
    ensures RunReceiver(cfg, RIdle, [Arrived(d)] + rx, credit) == Call(Err(BadMessage), [], rx, credit)
  {
    assert ([Arrived(d)] + rx)[1..] == rx;
  }
}
