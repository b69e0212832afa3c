/** What holds over every run of the virtual bus: who may have closed a channel, what a
    channel's history holds and in which order, and that a closed bus stays closed. */
module VirtualBusRuns {
  import opened Bytes
  import opened Frames
  import opened Channel
  import opened VirtualBus

  // ---------------------------------------------------------------- whose frame is whose

  /** A send under way is its thread's latest, and only invalid frames are turned away as such. */
  ghost predicate Named(b: Bus) {
    && |b.calls| == |b.pcs|
    && (forall t :: 0 <= t < |b.pcs| && !b.pcs[t].Idle? ==>
          && b.calls[t] != [] && b.calls[t][|b.calls[t]| - 1] == b.pcs[t].f
          && (b.pcs[t].Invalid? <==> !ValidFrame(b.pcs[t].f)))
    && (forall r :: r in b.results ==> (r.outcome.ErrInvalid? <==> !ValidFrame(r.frame)))
  }

  /** A step inside a send keeps its frame, and never comes back to the validity check. */
  lemma RegionKeepsFrame(b: Bus, t: nat)
    requires Enabled(b, Advance(t))
    ensures var pc, pc' := b.pcs[t], Region(b, t).pc;
      pc'.Idle? || (pc'.f == pc.f && !pc.Invalid? && !pc'.Invalid?)
    ensures |Region(b, t).chans| == |b.chans|
  {
  }

  lemma ResultsNamed(results: seq<Done>, d: Done)
    requires forall r :: r in results ==> (r.outcome.ErrInvalid? <==> !ValidFrame(r.frame))
    requires d.outcome.ErrInvalid? <==> !ValidFrame(d.frame)
    ensures forall r :: r in results + [d] ==> (r.outcome.ErrInvalid? <==> !ValidFrame(r.frame))
  {
  }

  lemma AdvanceNamed(b: Bus, t: nat)
    requires Named(b) && Enabled(b, Advance(t))
    ensures Named(Advanced(b, t))
  {
    RegionKeepsFrame(b, t);
    ResultsNamed(b.results, Record(b, t));
  }

  lemma CallNamed(b: Bus, t: nat, f: Frame)
    requires Named(b) && Enabled(b, Call(t, f))
    ensures Named(After(b, Call(t, f)))
  {
  }

  lemma LockNamed(b: Bus, t: nat)
    requires Named(b) && Enabled(b, Lock(t))
    ensures Named(After(b, Lock(t)))
  {
  }

  lemma StepNamed(b: Bus, step: Step)
    requires Named(b) && Enabled(b, step)
    ensures Named(After(b, step))
  {
    match step
    case Advance(t) => AdvanceNamed(b, t);
    case Call(t, f) => CallNamed(b, t, f);
    case Lock(t) => LockNamed(b, t);
    case _ => assert After(b, step).pcs == b.pcs && After(b, step).calls == b.calls;
  }

  // ---------------------------------------------------------------- order in each channel

  /** A send that has not come to subscriber i yet. */
  predicate Ahead(pc: Pc, i: nat) {
    match pc
    case Idle => false
    case Looping(_, k) => k <= i
    case Crediting(_, k) => k < i
    case CreditingBytes(_, k) => k < i
    case Dropping(_, k) => k < i
    case _ => true
  }

  /** The item is a valid frame its sender sent and the subscriber asked for, from a send
      that has come to this subscriber. */
  ghost predicate Genuine(b: Bus, i: nat, it: Item)
    requires |b.calls| == |b.pcs| && i < |b.subs|
  {
    && it.sender < |b.pcs| && 1 <= it.call <= |b.calls[it.sender]|
    && it.frame == b.calls[it.sender][it.call - 1]
    && ValidFrame(it.frame) && WantsFrame(b.subs[i], it.frame)
    && (Ahead(b.pcs[it.sender], i) ==> it.call < |b.calls[it.sender]|)
  }

  /** Items of one sender are in the order it sent them, none twice. */
  ghost predicate InOrder(s: seq<Item>) {
    forall j, k :: 0 <= j < k < |s| && s[j].sender == s[k].sender ==> s[j].call < s[k].call
  }

  ghost predicate Faithful(b: Bus, i: nat)
    requires |b.calls| == |b.pcs| && i < |b.subs| && |b.chans| == |b.subs|
  {
    && (forall it :: it in b.chans[i].accepted ==> Genuine(b, i, it))
    && InOrder(b.chans[i].accepted)
  }

  ghost predicate AllFaithful(b: Bus) {
    && |b.calls| == |b.pcs| && |b.chans| == |b.subs|
    && forall i :: 0 <= i < |b.subs| ==> Faithful(b, i)
  }

  /** A step of thread t spoils no item, if the thread does not go back to before i. */
  lemma StillGenuine(b: Bus, c: Bus, i: nat, t: nat, it: Item)
    requires |b.calls| == |b.pcs| == |c.pcs| == |c.calls| && i < |b.subs| <= |c.subs| && c.subs[i] == b.subs[i]
    requires Genuine(b, i, it)
    requires t < |b.pcs| && c.pcs == b.pcs[t := c.pcs[t]] && c.calls == b.calls[t := c.calls[t]]
    requires b.calls[t] <= c.calls[t]
    requires |b.calls[t]| < |c.calls[t]| || (Ahead(c.pcs[t], i) ==> Ahead(b.pcs[t], i))
    ensures Genuine(c, i, it)
  {
    if it.sender == t {
      assert c.calls[t][it.call - 1] == b.calls[t][it.call - 1];
    } else {
      assert c.calls[it.sender] == b.calls[it.sender] && c.pcs[it.sender] == b.pcs[it.sender];
    }
  }

  /** A step of thread t that delivers nothing to channel i. */
  lemma ThreadStepFaithful(b: Bus, c: Bus, i: nat, t: nat)
    requires |b.calls| == |b.pcs| == |c.pcs| == |c.calls| && |b.chans| == |b.subs|
    requires c.subs == b.subs && |c.chans| == |c.subs|
    requires i < |b.subs| && Faithful(b, i) && c.chans[i].accepted == b.chans[i].accepted
    requires t < |b.pcs| && c.pcs == b.pcs[t := c.pcs[t]] && c.calls == b.calls[t := c.calls[t]]
    requires b.calls[t] <= c.calls[t]
    requires |b.calls[t]| < |c.calls[t]| || (Ahead(c.pcs[t], i) ==> Ahead(b.pcs[t], i))
    ensures Faithful(c, i)
  {
    forall it | it in c.chans[i].accepted ensures Genuine(c, i, it) {
      StillGenuine(b, c, i, t, it);
    }
  }

  /** The item thread t is delivering. */
  function Present(b: Bus, t: nat): Item
    requires t < |b.pcs| == |b.calls| && !b.pcs[t].Idle?
  {
    Item(b.pcs[t].f, t, |b.calls[t]|)
  }

  /** What a delivery does to the thread and to its channel's history. */
  lemma DeliveryHistory(b: Bus, t: nat)
    requires Enabled(b, Advance(t)) && Delivering(b, t)
    ensures var c, i := Advanced(b, t), b.pcs[t].k;
      && |c.chans| == |b.chans| && c.subs == b.subs && c.calls == b.calls && c.pcs == b.pcs[t := c.pcs[t]]
      && !Ahead(c.pcs[t], i) && c.pcs[t].f == b.pcs[t].f
      && (c.chans[i].accepted == b.chans[i].accepted
          || c.chans[i].accepted == b.chans[i].accepted + [Present(b, t)])
  {
  }

  lemma InOrderSnoc(s: seq<Item>, item: Item)
    requires InOrder(s) && forall j :: 0 <= j < |s| && s[j].sender == item.sender ==> s[j].call < item.call
    ensures InOrder(s + [item])
  {
  }

  /** What thread t delivers is genuine once it has come past the subscriber. */
  lemma PresentGenuine(b: Bus, c: Bus, i: nat, t: nat)
    requires Named(b) && i < |b.subs| && t < |b.pcs| && b.pcs[t].Looping? && WantsFrame(b.subs[i], b.pcs[t].f)
    requires c.calls == b.calls && c.subs == b.subs && |c.pcs| == |b.pcs| && !Ahead(c.pcs[t], i)
    ensures Genuine(c, i, Present(b, t))
  {
  }

  /** Delivering to channel i appends an item later than all of its sender's. */
  lemma DeliveryFaithful(b: Bus, t: nat)
    requires Named(b) && Enabled(b, Advance(t)) && Delivering(b, t) && Faithful(b, b.pcs[t].k)
    ensures Faithful(Advanced(b, t), b.pcs[t].k)
  {
    var i, c, item := b.pcs[t].k, Advanced(b, t), Present(b, t);
    var s := b.chans[i].accepted;
    DeliveryHistory(b, t);
    PresentGenuine(b, c, i, t);
    forall it | it in c.chans[i].accepted ensures Genuine(c, i, it) {
      if it in s {
        StillGenuine(b, c, i, t, it);
      }
    }
    forall j | 0 <= j < |s| && s[j].sender == t ensures s[j].call < item.call {
      assert s[j] in s;
      assert Genuine(b, i, s[j]);
    }
    InOrderSnoc(s, item);
  }

  lemma AdvanceFaithful(b: Bus, t: nat)
    requires Named(b) && AllFaithful(b) && Enabled(b, Advance(t))
    ensures AllFaithful(Advanced(b, t))
  {
    var c := Advanced(b, t);
    forall i | 0 <= i < |c.subs| ensures Faithful(c, i) {
      assert Faithful(b, i);
      if Delivering(b, t) && b.pcs[t].k == i {
        DeliveryFaithful(b, t);
      } else {
        ThreadStepFaithful(b, c, i, t);
      }
    }
  }

  lemma QueueFaithful(b: Bus, t: nat, step: Step)
    requires AllFaithful(b) && Enabled(b, step) && (step.Call? || step.Lock?) && step.t == t
    ensures AllFaithful(After(b, step))
  {
    var c := After(b, step);
    forall i | 0 <= i < |c.subs| ensures Faithful(c, i) {
      assert Faithful(b, i);
      ThreadStepFaithful(b, c, i, t);
    }
  }

  /** A step that moves no thread and accepts nothing. */
  lemma IdleStepFaithful(b: Bus, c: Bus)
    requires AllFaithful(b) && c.calls == b.calls && c.pcs == b.pcs
    requires |c.chans| == |c.subs| && b.subs <= c.subs
    requires forall i :: 0 <= i < |b.subs| ==> c.chans[i].accepted == b.chans[i].accepted
    requires forall i :: |b.subs| <= i < |c.subs| ==> c.chans[i].accepted == []
    ensures AllFaithful(c)
  {
    forall i | 0 <= i < |c.subs| ensures Faithful(c, i) {
      if i < |b.subs| {
        assert Faithful(b, i);
        assert forall it :: it in c.chans[i].accepted ==> Genuine(b, i, it);
      }
    }
  }

  lemma StepFaithful(b: Bus, step: Step)
    requires Named(b) && AllFaithful(b) && Enabled(b, step)
    ensures AllFaithful(After(b, step))
  {
    match step
    case Advance(t) => AdvanceFaithful(b, t);
    case Call(t, _) => QueueFaithful(b, t, step);
    case Lock(t) => QueueFaithful(b, t, step);
    case _ => IdleStepFaithful(b, After(b, step));
  }

  // ---------------------------------------------------------------- runs

  ghost predicate Good(b: Bus) { Orderly(b) && Named(b) && AllFaithful(b) }

  lemma {:induction false} RunGood(b: Bus, steps: seq<Step>)
    requires Good(b) && Run(b, steps).Some?
    ensures Good(Run(b, steps).value)
    decreases |steps|
  {
    if steps != [] {
      StepOrderly(b, steps[0]);
      StepNamed(b, steps[0]);
      StepFaithful(b, steps[0]);
      RunGood(After(b, steps[0]), steps[1..]);
    }
  }

  lemma StartGood(threads: nat)
    ensures Good(Start(threads))
  {
  }

  /** In every run: until close takes the lock, a closed channel was closed by its own
      subscriber; no send is past its closed_ check while close works; and close leaves
      every channel closed. */
  lemma ClosedByWhom(threads: nat, steps: seq<Step>, b: Bus)
    requires Run(Start(threads), steps) == Some(b)
    ensures forall i :: 0 <= i < |b.chans| && b.chans[i].closed && !b.closed ==> i in b.selfClosed
    ensures forall t :: 0 <= t < |b.pcs| && Sends(b.pcs[t]) ==> !b.closed && b.closer.None?
    ensures b.cleared ==> forall i :: 0 <= i < |b.chans| ==> b.chans[i].closed
  {
    StartGood(threads);
    RunGood(Start(threads), steps);
    forall i | 0 <= i < |b.chans|
      ensures (b.chans[i].closed && !b.closed ==> i in b.selfClosed) && (b.cleared ==> b.chans[i].closed)
    {
      assert ClosedRight(b, i);
    }
  }

  /** In every run each channel holds, in the order each sender sent them and none twice,
      valid frames their senders really sent and the subscriber's filters match; what its
      subscriber received is in that order too. */
  lemma SenderOrderKept(threads: nat, steps: seq<Step>, b: Bus, i: nat)
    requires Run(Start(threads), steps) == Some(b) && i < |b.chans|
    ensures |b.calls| == |b.pcs| && |b.subs| == |b.chans|
    ensures forall it :: it in b.chans[i].accepted ==> Genuine(b, i, it)
    ensures InOrder(b.chans[i].accepted)
    ensures InOrder(ReceivedItems(b.chans[i].gone))
  {
    StartGood(threads);
    RunGood(Start(threads), steps);
    assert Faithful(b, i);
    assert Sound(b.chans[i], b.subs[i].capacity);
    Conservation(b.chans[i], b.subs[i].capacity);
    SubsequenceInOrder(ReceivedItems(b.chans[i].gone), b.chans[i].accepted);
  }

  lemma {:induction false} SubsequenceMembers(s: seq<Item>, u: seq<Item>)
    requires Subsequence(s, u)
    ensures forall x :: x in s ==> x in u
    decreases |u|
  {
    if s != [] {
      if s[0] == u[0] && Subsequence(s[1..], u[1..]) {
        SubsequenceMembers(s[1..], u[1..]);
        assert s == [s[0]] + s[1..];
      } else {
        SubsequenceMembers(s, u[1..]);
      }
    }
  }

  lemma {:induction false} SubsequenceInOrder(s: seq<Item>, u: seq<Item>)
    requires Subsequence(s, u) && InOrder(u)
    ensures InOrder(s)
    decreases |u|
  {
    if s != [] {
      assert InOrder(u[1..]);
      if s[0] == u[0] && Subsequence(s[1..], u[1..]) {
        SubsequenceInOrder(s[1..], u[1..]);
        SubsequenceMembers(s[1..], u[1..]);
        forall j, k | 0 <= j < k < |s| && s[j].sender == s[k].sender ensures s[j].call < s[k].call {
          assert s[k] == s[1..][k - 1];
          if j > 0 {
            assert s[j] == s[1..][j - 1];
          } else {
            assert s[k] in u[1..];
          }
        }
      } else {
        SubsequenceInOrder(s, u[1..]);
      }
    }
  }

  // ---------------------------------------------------------------- after close

  /** The outcome of a send that completes once the bus is closed. */
  predicate TurnedAway(r: Done) {
    r.outcome == if ValidFrame(r.frame) then ErrClosed else ErrInvalid
  }

  /** The only sends still under way in a closed bus are on their way out. */
  lemma RefusedAfterClose(b: Bus, t: nat)
    requires Orderly(b) && Named(b) && b.cleared && Enabled(b, Advance(t))
    ensures b.pcs[t].Invalid? || b.pcs[t].Refused?
    ensures var e := Region(b, t);
      && e == Effect(Idle, b.chans, b.m.(errors := b.m.errors + 1), b.refusals)
      && TurnedAway(Record(b, t))
  {
    assert Sends(b.pcs[t]) ==> !b.closed;
  }

  lemma StepAfterClose(b: Bus, step: Step)
    requires Orderly(b) && Named(b) && b.cleared && Enabled(b, step)
    ensures var c := After(b, step);
      && c.cleared && c.subs == b.subs && |c.chans| == |b.chans|
      && (forall i :: 0 <= i < |b.chans| ==> c.chans[i].accepted == b.chans[i].accepted)
      && c.m.(errors := 0) == b.m.(errors := 0)
      && b.results <= c.results
      && forall j :: |b.results| <= j < |c.results| ==> TurnedAway(c.results[j])
  {
    if step.Advance? {
      RefusedAfterClose(b, step.t);
    }
  }

  /** After close has completed, however the run goes on: no channel accepts another frame,
      no counter but error_count_ moves, and every send that completes is turned away,
      with ErrClosed exactly when its frame is valid. */
  lemma {:induction false} NothingAfterClose(b: Bus, steps: seq<Step>)
    requires Good(b) && b.cleared && Run(b, steps).Some?
    ensures var c := Run(b, steps).value;
      && c.cleared && c.subs == b.subs && |c.chans| == |b.chans|
      && (forall i :: 0 <= i < |b.chans| ==> c.chans[i].accepted == b.chans[i].accepted)
      && c.m.(errors := 0) == b.m.(errors := 0)
      && b.results <= c.results
      && forall j :: |b.results| <= j < |c.results| ==> TurnedAway(c.results[j])
    decreases |steps|
  {
    if steps != [] {
      var step := steps[0];
      StepOrderly(b, step);
      StepNamed(b, step);
      StepFaithful(b, step);
      StepAfterClose(b, step);
      NothingAfterClose(After(b, step), steps[1..]);
    }
  }
}
