/** What becomes of a frame the virtual bus has accepted: in every run, every subscriber that
    wants it has taken it in or its refusal is on record, with the reason. */
module VirtualBusReach {
  import opened Bytes
  import opened Channel
  import opened VirtualBus
  import opened VirtualBusRuns

  ghost predicate Refused(b: Bus, i: nat, it: Item) {
    exists r :: r in b.refusals && r.i == i && r.item == it
  }

  ghost predicate Settled(b: Bus, i: nat, it: Item)
    requires i < |b.chans|
  {
    it in b.chans[i].accepted || Refused(b, i, it)
  }

  /** The reason on record is true: only a full channel under DropNewest, or a channel its
      own subscriber closed, turns an item away. */
  ghost predicate Justified(b: Bus, r: Refusal) {
    && r.i < |b.subs|
    && match r.why
       case Full => b.subs[r.i].policy.DropNewest? && r.held == b.subs[r.i].capacity
       case ShutPassed => b.subs[r.i].policy.DropNewest? && r.i in b.selfClosed
       case ShutCredited => !b.subs[r.i].policy.DropNewest? && r.i in b.selfClosed
  }

  /** A refused item is one its sender sent and the channel has not got. */
  ghost predicate RefusalRight(b: Bus, r: Refusal)
    requires |b.calls| == |b.pcs| && |b.chans| == |b.subs|
  {
    Justified(b, r) && Genuine(b, r.i, r.item) && r.item !in b.chans[r.i].accepted
  }

  /** The send under way in thread t has settled with the subscribers it has come past. */
  ghost predicate UnderWay(b: Bus, t: nat)
    requires |b.calls| == |b.pcs| && |b.chans| == |b.subs| && t < |b.pcs|
  {
    Sends(b.pcs[t]) ==>
      forall i :: 0 <= i < |b.subs| && !Ahead(b.pcs[t], i) && WantsFrame(b.subs[i], b.pcs[t].f) ==>
        Settled(b, i, Present(b, t))
  }

  function ItemOf(r: Done): Item { Item(r.frame, r.sender, r.call) }

  /** A successful send has settled with every subscriber there was. */
  ghost predicate ResultRight(b: Bus, r: Done)
    requires |b.calls| == |b.pcs| && |b.chans| == |b.subs|
  {
    && r.sender < |b.pcs| && 1 <= r.call <= |b.calls[r.sender]| && r.frame == b.calls[r.sender][r.call - 1]
    && r.among <= b.subs
    && (r.outcome.Sent? ==>
          forall i :: 0 <= i < |r.among| && WantsFrame(r.among[i], r.frame) ==> Settled(b, i, ItemOf(r)))
  }

  ghost predicate Reaching(b: Bus) {
    && |b.calls| == |b.pcs| && |b.chans| == |b.subs|
    && (forall r :: r in b.refusals ==> RefusalRight(b, r))
    && (forall t :: 0 <= t < |b.pcs| ==> UnderWay(b, t))
    && (forall r :: r in b.results ==> ResultRight(b, r))
  }

  // ---------------------------------------------------------------- histories only grow

  ghost predicate Grows(b: Bus, c: Bus) {
    && |b.chans| == |b.subs| <= |c.chans| == |c.subs| && |b.calls| == |b.pcs| == |c.pcs| == |c.calls|
    && b.subs <= c.subs && b.refusals <= c.refusals && b.selfClosed <= c.selfClosed
    && (forall i :: 0 <= i < |b.chans| ==> b.chans[i].accepted <= c.chans[i].accepted)
    && (forall t :: 0 <= t < |b.calls| ==> b.calls[t] <= c.calls[t])
  }

  lemma StepGrows(b: Bus, step: Step)
    requires Enabled(b, step)
    ensures Grows(b, After(b, step))
  {
    if step.Advance? && Delivering(b, step.t) {
      DeliveryHistory(b, step.t);
    }
  }

  lemma SettledStays(b: Bus, c: Bus, i: nat, it: Item)
    requires Grows(b, c) && i < |b.chans| && Settled(b, i, it)
    ensures Settled(c, i, it)
  {
    if it in b.chans[i].accepted {
      assert b.chans[i].accepted <= c.chans[i].accepted;
    } else {
      var r :| r in b.refusals && r.i == i && r.item == it;
      assert r in c.refusals;
    }
  }

  lemma ResultStays(b: Bus, c: Bus, r: Done)
    requires Grows(b, c) && ResultRight(b, r)
    ensures ResultRight(c, r)
  {
    assert b.calls[r.sender] <= c.calls[r.sender];
    if r.outcome.Sent? {
      forall i | 0 <= i < |r.among| && WantsFrame(r.among[i], r.frame) ensures Settled(c, i, ItemOf(r)) {
        SettledStays(b, c, i, ItemOf(r));
      }
    }
  }

  lemma UnderWayStays(b: Bus, c: Bus, t: nat)
    requires Grows(b, c) && t < |b.pcs| && UnderWay(b, t)
    requires c.pcs[t] == b.pcs[t] && c.calls[t] == b.calls[t] && (Sends(b.pcs[t]) ==> c.subs == b.subs)
    ensures UnderWay(c, t)
  {
    if Sends(b.pcs[t]) {
      forall i | 0 <= i < |c.subs| && !Ahead(c.pcs[t], i) && WantsFrame(c.subs[i], c.pcs[t].f)
        ensures Settled(c, i, Present(c, t))
      {
        SettledStays(b, c, i, Present(b, t));
      }
    }
  }

  // ---------------------------------------------------------------- items stay what they are

  lemma NeverBack(b: Bus, t: nat, i: nat)
    requires Enabled(b, Advance(t)) && Ahead(Region(b, t).pc, i)
    ensures Ahead(b.pcs[t], i)
  {
  }

  lemma StepGenuine(b: Bus, step: Step, i: nat, it: Item)
    requires Enabled(b, step) && i < |b.subs| && Genuine(b, i, it)
    ensures Grows(b, After(b, step)) && Genuine(After(b, step), i, it)
  {
    StepGrows(b, step);
    var c := After(b, step);
    match step
    case Advance(t) =>
      if Ahead(c.pcs[t], i) {
        NeverBack(b, t, i);
      }
      StillGenuine(b, c, i, t, it);
    case Call(t, _) => StillGenuine(b, c, i, t, it);
    case Lock(t) => StillGenuine(b, c, i, t, it);
    case _ => assert c.pcs == b.pcs && c.calls == b.calls;
  }

  /** What thread t is about to deliver is in neither of the channel's records. */
  lemma PresentIsNew(b: Bus, t: nat, it: Item)
    requires Enabled(b, Advance(t)) && Delivering(b, t) && Genuine(b, b.pcs[t].k, it)
    ensures it != Present(b, t)
  {
  }

  lemma AcceptedUnchanged(b: Bus, step: Step, i: nat)
    requires Enabled(b, step) && i < |b.chans|
    requires step.Advance? && Delivering(b, step.t) ==> b.pcs[step.t].k != i
    ensures After(b, step).chans[i].accepted == b.chans[i].accepted
  {
  }

  lemma RefusalStays(b: Bus, step: Step, r: Refusal)
    requires Enabled(b, step) && RefusalRight(b, r)
    ensures Grows(b, After(b, step)) && RefusalRight(After(b, step), r)
  {
    StepGenuine(b, step, r.i, r.item);
    if step.Advance? && Delivering(b, step.t) && b.pcs[step.t].k == r.i {
      PresentIsNew(b, step.t, r.item);
      DeliveryHistory(b, step.t);
    } else {
      AcceptedUnchanged(b, step, r.i);
    }
  }

  // ---------------------------------------------------------------- deliveries

  /** The refusals a delivery adds. */
  function Added(b: Bus, t: nat): seq<Refusal>
    requires Delivering(b, t) && |b.chans| == |b.subs| && |b.calls| == |b.pcs|
  {
    Refusals(b.subs[b.pcs[t].k], b.chans[b.pcs[t].k], Present(b, t), b.pcs[t].k)
  }

  lemma AddedJustified(b: Bus, t: nat, r: Refusal)
    requires Orderly(b) && Enabled(b, Advance(t)) && Delivering(b, t) && r in Added(b, t)
    ensures Justified(b, r) && r.i == b.pcs[t].k && r.item == Present(b, t)
    ensures Advanced(b, t).chans == b.chans
  {
    var k := b.pcs[t].k;
    assert Sends(b.pcs[t]) && ClosedRight(b, k) && Sound(b.chans[k], b.subs[k].capacity);
    assert b.chans[k := b.chans[k]] == b.chans;
  }

  lemma AddedRight(b: Bus, t: nat, r: Refusal)
    requires Good(b) && Enabled(b, Advance(t)) && Delivering(b, t) && r in Added(b, t)
    ensures RefusalRight(Advanced(b, t), r)
  {
    var c, k := Advanced(b, t), b.pcs[t].k;
    AddedJustified(b, t, r);
    DeliveryHistory(b, t);
    PresentGenuine(b, c, k, t);
    assert Faithful(b, k);
    if r.item in b.chans[k].accepted {
      PresentIsNew(b, t, r.item);
    }
  }

  /** A delivery settles with its subscriber. */
  lemma DeliverySettles(b: Bus, t: nat)
    requires Orderly(b) && Enabled(b, Advance(t)) && Delivering(b, t)
    ensures Settled(Advanced(b, t), b.pcs[t].k, Present(b, t))
  {
    var k := b.pcs[t].k;
    DeliverySound(b.subs[k], b.chans[k], Present(b, t), b.pcs[t].f, k);
    if Added(b, t) == [] {
      assert Present(b, t) in Advanced(b, t).chans[k].accepted;
    } else {
      assert Added(b, t)[0] in Advanced(b, t).refusals;
    }
  }

  lemma DeliverUnderWay(b: Bus, t: nat)
    requires Orderly(b) && Enabled(b, Advance(t)) && Delivering(b, t) && UnderWay(b, t)
    ensures UnderWay(Advanced(b, t), t)
  {
    var c, k := Advanced(b, t), b.pcs[t].k;
    StepGrows(b, Advance(t));
    DeliveryHistory(b, t);
    forall i | 0 <= i < |c.subs| && !Ahead(c.pcs[t], i) && WantsFrame(c.subs[i], c.pcs[t].f)
      ensures Settled(c, i, Present(c, t))
    {
      if i == k {
        DeliverySettles(b, t);
      } else {
        SettledStays(b, c, i, Present(b, t));
      }
    }
  }

  lemma CountUnderWay(b: Bus, t: nat)
    requires Enabled(b, Advance(t)) && !Delivering(b, t) && UnderWay(b, t) && !Region(b, t).pc.Idle?
    ensures UnderWay(Advanced(b, t), t)
  {
    var c := Advanced(b, t);
    StepGrows(b, Advance(t));
    forall i | 0 <= i < |c.subs| && !Ahead(c.pcs[t], i) && WantsFrame(c.subs[i], c.pcs[t].f)
      ensures Settled(c, i, Present(c, t))
    {
      SettledStays(b, c, i, Present(b, t));
    }
  }

  lemma ReturnRight(b: Bus, t: nat)
    requires Named(b) && Enabled(b, Advance(t)) && UnderWay(b, t) && Region(b, t).pc.Idle?
    ensures ResultRight(Advanced(b, t), Record(b, t))
  {
    var c, r := Advanced(b, t), Record(b, t);
    StepGrows(b, Advance(t));
    if r.outcome.Sent? {
      forall i | 0 <= i < |r.among| && WantsFrame(r.among[i], r.frame) ensures Settled(c, i, ItemOf(r)) {
        SettledStays(b, c, i, Present(b, t));
      }
    }
  }

  // ---------------------------------------------------------------- steps

  lemma StepRefusals(b: Bus, step: Step, r: Refusal)
    requires Good(b) && Reaching(b) && Enabled(b, step) && r in After(b, step).refusals
    ensures Grows(b, After(b, step)) && RefusalRight(After(b, step), r)
  {
    StepGrows(b, step);
    if r in b.refusals {
      RefusalStays(b, step, r);
    } else {
      AddedRight(b, step.t, r);
    }
  }

  lemma AdvanceUnderWay(b: Bus, t: nat)
    requires Good(b) && Enabled(b, Advance(t)) && UnderWay(b, t)
    ensures UnderWay(Advanced(b, t), t)
  {
    if Delivering(b, t) {
      DeliverUnderWay(b, t);
    } else if !Region(b, t).pc.Idle? {
      CountUnderWay(b, t);
    }
  }

  lemma StepUnderWay(b: Bus, step: Step, t: nat)
    requires Good(b) && Reaching(b) && Enabled(b, step) && t < |b.pcs|
    ensures Grows(b, After(b, step)) && UnderWay(After(b, step), t)
  {
    StepGrows(b, step);
    assert UnderWay(b, t);
    var c := After(b, step);
    if step == Advance(t) {
      AdvanceUnderWay(b, t);
    } else if c.pcs[t] == b.pcs[t] && c.calls[t] == b.calls[t] {
      UnderWayStays(b, c, t);
    }
  }

  lemma StepResults(b: Bus, step: Step, r: Done)
    requires Good(b) && Reaching(b) && Enabled(b, step) && r in After(b, step).results
    ensures Grows(b, After(b, step)) && ResultRight(After(b, step), r)
  {
    StepGrows(b, step);
    if r in b.results {
      ResultStays(b, After(b, step), r);
    } else {
      assert UnderWay(b, step.t);
      ReturnRight(b, step.t);
    }
  }

  lemma StepReaching(b: Bus, step: Step)
    requires Good(b) && Reaching(b) && Enabled(b, step)
    ensures Reaching(After(b, step))
  {
    var c := After(b, step);
    StepGrows(b, step);
    forall r | r in c.refusals ensures RefusalRight(c, r) {
      StepRefusals(b, step, r);
    }
    forall t | 0 <= t < |c.pcs| ensures UnderWay(c, t) {
      StepUnderWay(b, step, t);
    }
    forall r | r in c.results ensures ResultRight(c, r) {
      StepResults(b, step, r);
    }
  }

  // ---------------------------------------------------------------- runs

  lemma {:induction false} RunReaching(b: Bus, steps: seq<Step>)
    requires Good(b) && Reaching(b) && Run(b, steps).Some?
    ensures Good(Run(b, steps).value) && Reaching(Run(b, steps).value)
    decreases |steps|
  {
    if steps != [] {
      StepOrderly(b, steps[0]);
      StepNamed(b, steps[0]);
      StepFaithful(b, steps[0]);
      StepReaching(b, steps[0]);
      RunReaching(After(b, steps[0]), steps[1..]);
    }
  }

  /** In every run, for every successful send and every subscriber there was when it
      returned: one that does not want the frame has not got it; one that does has taken it
      in exactly when its channel has not refused it. */
  lemma EveryMatchSettled(threads: nat, steps: seq<Step>, b: Bus, r: Done, i: nat)
    requires Run(Start(threads), steps) == Some(b)
    requires r in b.results && r.outcome.Sent? && i < |r.among|
    ensures |b.chans| == |b.subs| && r.among <= b.subs
    ensures if WantsFrame(r.among[i], r.frame) then ItemOf(r) in b.chans[i].accepted <==> !Refused(b, i, ItemOf(r))
            else ItemOf(r) !in b.chans[i].accepted
  {
    StartGood(threads);
    RunReaching(Start(threads), steps);
    assert ResultRight(b, r) && Faithful(b, i);
    if ItemOf(r) in b.chans[i].accepted {
      assert Genuine(b, i, ItemOf(r));
    }
    if Refused(b, i, ItemOf(r)) {
      var x :| x in b.refusals && x.i == i && x.item == ItemOf(r);
      assert RefusalRight(b, x);
    }
  }

  /** In every run a refusal has its reason: the channel held as many items as it can and its
      policy is DropNewest, or its own subscriber had closed it. */
  lemma RefusedForAReason(threads: nat, steps: seq<Step>, b: Bus, r: Refusal)
    requires Run(Start(threads), steps) == Some(b) && r in b.refusals
    ensures Justified(b, r)
  {
    StartGood(threads);
    RunReaching(Start(threads), steps);
    assert RefusalRight(b, r);
  }

  /** So a subscriber under DropOldest or Block that has not closed its own channel has taken
      in every frame it wanted. */
  lemma PatientSubscriberMissesNothing(threads: nat, steps: seq<Step>, b: Bus, r: Done, i: nat)
    requires Run(Start(threads), steps) == Some(b)
    requires r in b.results && r.outcome.Sent? && i < |r.among| && WantsFrame(r.among[i], r.frame)
    requires !r.among[i].policy.DropNewest? && i !in b.selfClosed
    ensures i < |b.chans| && ItemOf(r) in b.chans[i].accepted
  {
    EveryMatchSettled(threads, steps, b, r, i);
    if Refused(b, i, ItemOf(r)) {
      var x :| x in b.refusals && x.i == i && x.item == ItemOf(r);
      RefusedForAReason(threads, steps, b, x);
    }
  }
}
