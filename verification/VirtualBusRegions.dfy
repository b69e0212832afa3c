/** The regions of a send nobody else's call overlaps, and of subscribe and close: each is a
    step of the interleaving model and leads from a reached state to another. */
module VirtualBusRegions {
  import opened Bytes
  import opened Frames
  import opened Channel
  import opened VirtualBus

  lemma {:induction false} RunSnoc(b: Bus, steps: seq<Step>, step: Step)
    requires Run(b, steps).Some? && Enabled(Run(b, steps).value, step)
    ensures Run(b, steps + [step]) == Some(After(Run(b, steps).value, step))
    decreases |steps|
  {
    if steps == [] {
      assert Run(After(b, step), [step][1..]) == Some(After(b, step));
      assert steps + [step] == [step];
    } else {
      assert (steps + [step])[1..] == steps[1..] + [step];
      RunSnoc(After(b, steps[0]), steps[1..], step);
    }
  }

  /** The state is one a run leads to. */
  ghost predicate Reached(threads: nat, trace: seq<Step>, b: Bus) {
    Run(Start(threads), trace) == Some(b)
  }

  /** The run goes on from trace to next and leads to c. */
  ghost predicate Leads(threads: nat, trace: seq<Step>, next: seq<Step>, c: Bus) {
    trace <= next && Reached(threads, next, c)
  }

  /** Thread t's send has come to pc; nobody else is about. */
  ghost predicate Sending(b: Bus, t: nat, pc: Pc) {
    && |b.chans| == |b.subs| && |b.calls| == |b.pcs| && b.closer.None?
    && t < |b.pcs| && b.pcs[t] == pc
    && forall u :: 0 <= u < |b.pcs| && u != t ==> b.pcs[u].Idle?
  }

  ghost predicate Resting(b: Bus) {
    && |b.chans| == |b.subs| && |b.calls| == |b.pcs| && b.closer.None?
    && forall u :: 0 <= u < |b.pcs| ==> b.pcs[u].Idle?
  }

  /** What the bus keeps while a send goes through its regions. */
  ghost predicate Onward(b: Bus, c: Bus) {
    && c.subs == b.subs && c.calls == b.calls && c.results == b.results && |c.pcs| == |b.pcs|
    && c.closed == b.closed && c.selfClosed == b.selfClosed
  }

  /** Thread t has begun a send, and returned from one. */
  ghost predicate Began(b: Bus, c: Bus, t: nat, f: Frame)
    requires t < |b.calls|
  {
    && c.subs == b.subs && c.calls == b.calls[t := b.calls[t] + [f]] && c.results == b.results
    && |c.pcs| == |b.pcs| && c.closed == b.closed && c.selfClosed == b.selfClosed
  }

  ghost predicate Returned(b: Bus, c: Bus, r: Done) {
    && c.subs == b.subs && c.calls == b.calls && c.results == b.results + [r]
    && |c.pcs| == |b.pcs| && c.closed == b.closed && c.selfClosed == b.selfClosed
  }

  lemma ReachedNext(threads: nat, trace: seq<Step>, b: Bus, step: Step) returns (next: seq<Step>, c: Bus)
    requires Reached(threads, trace, b) && Enabled(b, step)
    ensures c == After(b, step) && Leads(threads, trace, next, c)
  {
    RunSnoc(Start(threads), trace, step);
    next, c := trace + [step], After(b, step);
  }

  // ---------------------------------------------------------------- one region at a time
  // Each lemma takes a reached state over one region and says where it leads, so that the
  // bus object's methods need not look into the step function.

  lemma SkipRegion(threads: nat, trace: seq<Step>, b: Bus, t: nat, f: Frame, k: nat) returns (next: seq<Step>, c: Bus)
    requires Reached(threads, trace, b) && Sending(b, t, Looping(f, k)) && k < |b.subs| && !WantsFrame(b.subs[k], f)
    ensures Leads(threads, trace, next, c) && Onward(b, c)
    ensures Sending(c, t, Looping(f, k + 1)) && c.chans == b.chans && c.m == b.m
  {
    next, c := ReachedNext(threads, trace, b, Advance(t));
  }

  lemma DeliverRegion(threads: nat, trace: seq<Step>, b: Bus, t: nat, f: Frame, k: nat)
    returns (next: seq<Step>, c: Bus)
    requires Reached(threads, trace, b) && Sending(b, t, Looping(f, k)) && k < |b.subs| && WantsFrame(b.subs[k], f) &&
      CanDeliver(b, k)
    ensures Leads(threads, trace, next, c) && Onward(b, c)
    ensures var d := Delivery(b.subs[k], b.chans[k], Item(f, t, |b.calls[t]|), f, k);
      Sending(c, t, d.1) && c.chans == b.chans[k := d.0] && c.m == b.m
  {
    next, c := ReachedNext(threads, trace, b, Advance(t));
  }

  lemma CreditRegion(threads: nat, trace: seq<Step>, b: Bus, t: nat, f: Frame, k: nat) returns (next: seq<Step>, c: Bus)
    requires Reached(threads, trace, b) && Sending(b, t, Crediting(f, k))
    ensures Leads(threads, trace, next, c) && Onward(b, c)
    ensures Sending(c, t, CreditingBytes(f, k)) && c.chans == b.chans
      && c.m == b.m.(delivers := b.m.delivers + 1)
  {
    next, c := ReachedNext(threads, trace, b, Advance(t));
  }

  lemma CreditBytesRegion(threads: nat, trace: seq<Step>, b: Bus, t: nat, f: Frame, k: nat)
    returns (next: seq<Step>, c: Bus)
    requires Reached(threads, trace, b) && Sending(b, t, CreditingBytes(f, k))
    ensures Leads(threads, trace, next, c) && Onward(b, c)
    ensures Sending(c, t, Looping(f, k + 1)) && c.chans == b.chans
      && c.m == b.m.(bytesDelivered := b.m.bytesDelivered + |f.data|)
  {
    next, c := ReachedNext(threads, trace, b, Advance(t));
  }

  lemma CreditRegions(threads: nat, trace: seq<Step>, b: Bus, t: nat, f: Frame, k: nat)
    returns (next: seq<Step>, c: Bus)
    requires Reached(threads, trace, b) && Sending(b, t, Crediting(f, k))
    ensures Leads(threads, trace, next, c) && Onward(b, c)
    ensures Sending(c, t, Looping(f, k + 1)) && c.chans == b.chans
      && c.m == b.m.(delivers := b.m.delivers + 1, bytesDelivered := b.m.bytesDelivered + |f.data|)
  {
    next, c := CreditRegion(threads, trace, b, t, f, k);
    next, c := CreditBytesRegion(threads, next, c, t, f, k);
  }

  lemma CallRegion(threads: nat, trace: seq<Step>, b: Bus, t: nat, f: Frame) returns (next: seq<Step>, c: Bus)
    requires Reached(threads, trace, b) && Resting(b) && t < |b.pcs|
    ensures Leads(threads, trace, next, c)
    ensures Sending(c, t, if ValidFrame(f) then Waiting(f) else Invalid(f)) && c.chans == b.chans && c.m == b.m
    ensures Began(b, c, t, f)
  {
    next, c := ReachedNext(threads, trace, b, Call(t, f));
  }

  lemma LockRegion(threads: nat, trace: seq<Step>, b: Bus, t: nat, f: Frame) returns (next: seq<Step>, c: Bus)
    requires Reached(threads, trace, b) && Sending(b, t, Waiting(f))
    ensures Leads(threads, trace, next, c) && Onward(b, c)
    ensures Sending(c, t, if b.closed then Refused(f) else Counting(f)) && c.chans == b.chans && c.m == b.m
  {
    next, c := ReachedNext(threads, trace, b, Lock(t));
  }

  lemma CountRegion(threads: nat, trace: seq<Step>, b: Bus, t: nat, f: Frame) returns (next: seq<Step>, c: Bus)
    requires Reached(threads, trace, b) && Sending(b, t, Counting(f))
    ensures Leads(threads, trace, next, c) && Onward(b, c)
    ensures Sending(c, t, CountingBytes(f)) && c.chans == b.chans && c.m == b.m.(writes := b.m.writes + 1)
  {
    next, c := ReachedNext(threads, trace, b, Advance(t));
  }

  lemma CountBytesRegion(threads: nat, trace: seq<Step>, b: Bus, t: nat, f: Frame) returns (next: seq<Step>, c: Bus)
    requires Reached(threads, trace, b) && Sending(b, t, CountingBytes(f))
    ensures Leads(threads, trace, next, c) && Onward(b, c)
    ensures Sending(c, t, Looping(f, 0)) && c.chans == b.chans
      && c.m == b.m.(bytesWritten := b.m.bytesWritten + |f.data|)
  {
    next, c := ReachedNext(threads, trace, b, Advance(t));
  }

  lemma CountRegions(threads: nat, trace: seq<Step>, b: Bus, t: nat, f: Frame) returns (next: seq<Step>, c: Bus)
    requires Reached(threads, trace, b) && Sending(b, t, Counting(f))
    ensures Leads(threads, trace, next, c) && Onward(b, c)
    ensures Sending(c, t, Looping(f, 0)) && c.chans == b.chans
      && c.m == b.m.(writes := b.m.writes + 1, bytesWritten := b.m.bytesWritten + |f.data|)
  {
    next, c := CountRegion(threads, trace, b, t, f);
    next, c := CountBytesRegion(threads, next, c, t, f);
  }

  /** The lock on an open bus, and the two counters. */
  lemma OpenRegions(threads: nat, trace: seq<Step>, b: Bus, t: nat, f: Frame) returns (next: seq<Step>, c: Bus)
    requires Reached(threads, trace, b) && Sending(b, t, Waiting(f)) && !b.closed
    ensures Leads(threads, trace, next, c) && Onward(b, c)
    ensures Sending(c, t, Looping(f, 0)) && c.chans == b.chans
      && c.m == b.m.(writes := b.m.writes + 1, bytesWritten := b.m.bytesWritten + |f.data|)
  {
    next, c := LockRegion(threads, trace, b, t, f);
    next, c := CountRegions(threads, next, c, t, f);
  }

  /** The last region of a send: it returns. */
  lemma ReturnRegion(threads: nat, trace: seq<Step>, b: Bus, t: nat, pc: Pc) returns (next: seq<Step>, c: Bus)
    requires Reached(threads, trace, b) && Sending(b, t, pc)
    requires pc.Invalid? || pc.Refused? || (pc.Looping? && pc.k >= |b.subs|)
    ensures Leads(threads, trace, next, c) && Resting(c) && c.chans == b.chans
    ensures Returned(b, c, Record(b, t))
    ensures c.m == if pc.Looping? then b.m else b.m.(errors := b.m.errors + 1)
  {
    next, c := ReachedNext(threads, trace, b, Advance(t));
  }

  lemma DropRegion(threads: nat, trace: seq<Step>, b: Bus, t: nat, f: Frame, k: nat) returns (next: seq<Step>, c: Bus)
    requires Reached(threads, trace, b) && Sending(b, t, Dropping(f, k))
    ensures Leads(threads, trace, next, c) && Onward(b, c)
    ensures Sending(c, t, Looping(f, k + 1)) && c.chans == b.chans && c.m == b.m.(drops := b.m.drops + 1)
  {
    next, c := ReachedNext(threads, trace, b, Advance(t));
  }

  lemma TakeRegion(threads: nat, trace: seq<Step>, b: Bus, t: nat, pc: Pc, i: nat) returns (next: seq<Step>, c: Bus)
    requires Reached(threads, trace, b) && Sending(b, t, pc) && i < |b.chans| && b.chans[i].buf != []
    ensures Leads(threads, trace, next, c) && Onward(b, c)
    ensures Sending(c, t, pc) && c.chans == b.chans[i := Pop(b.chans[i])] && c.m == b.m
  {
    next, c := ReachedNext(threads, trace, b, Take(i));
  }

  lemma SubscribeRegion(threads: nat, trace: seq<Step>, b: Bus, sub: Subscription) returns (next: seq<Step>, c: Bus)
    requires Reached(threads, trace, b) && Resting(b) && !b.closed && sub.capacity >= 1
    ensures Leads(threads, trace, next, c) && Resting(c) && c.m == b.m
    ensures c.chans == b.chans + [Empty()] && Onward(b.(subs := b.subs + [sub]), c)
  {
    next, c := ReachedNext(threads, trace, b, Subscribe(sub));
  }

  /** A subscriber closes its own channel. */
  lemma SelfCloseRegion(threads: nat, trace: seq<Step>, b: Bus, i: nat) returns (next: seq<Step>, c: Bus)
    requires Reached(threads, trace, b) && Resting(b) && i < |b.chans|
    ensures Leads(threads, trace, next, c) && Resting(c) && c.m == b.m
    ensures c.chans == b.chans[i := Shut(b.chans[i])] && Onward(b.(selfClosed := b.selfClosed + {i}), c)
  {
    next, c := ReachedNext(threads, trace, b, SelfClose(i));
  }

  /** close holds the lock and has closed k channels. */
  ghost predicate Closing(b: Bus, k: nat) {
    && |b.chans| == |b.subs| && |b.calls| == |b.pcs| && b.closed && b.closer == Some(k) && k <= |b.chans|
    && forall u :: 0 <= u < |b.pcs| ==> b.pcs[u].Idle?
  }

  lemma CloseBeginRegion(threads: nat, trace: seq<Step>, b: Bus) returns (next: seq<Step>, c: Bus)
    requires Reached(threads, trace, b) && Resting(b) && !b.closed
    ensures Leads(threads, trace, next, c) && Closing(c, 0) && c.chans == b.chans && c.m == b.m
    ensures Onward(b.(closed := true), c)
  {
    next, c := ReachedNext(threads, trace, b, CloseBegin);
  }

  lemma CloseNextRegion(threads: nat, trace: seq<Step>, b: Bus, k: nat) returns (next: seq<Step>, c: Bus)
    requires Reached(threads, trace, b) && Closing(b, k) && k < |b.chans|
    ensures Leads(threads, trace, next, c) && Closing(c, k + 1) && c.chans == b.chans[k := Shut(b.chans[k])] &&
      c.m == b.m
    ensures Onward(b, c)
  {
    next, c := ReachedNext(threads, trace, b, CloseNext);
  }

  lemma CloseEndRegion(threads: nat, trace: seq<Step>, b: Bus) returns (next: seq<Step>, c: Bus)
    requires Reached(threads, trace, b) && Closing(b, |b.chans|)
    ensures Leads(threads, trace, next, c) && Resting(c) && c.cleared && c.chans == b.chans && c.m == b.m
    ensures Onward(b, c)
  {
    next, c := ReachedNext(threads, trace, b, CloseNext);
  }

  lemma {:induction false} RunOrderly(b: Bus, steps: seq<Step>)
    requires Orderly(b) && Run(b, steps).Some?
    ensures Orderly(Run(b, steps).value)
    decreases |steps|
  {
    if steps != [] {
      StepOrderly(b, steps[0]);
      RunOrderly(After(b, steps[0]), steps[1..]);
    }
  }

  lemma ReachedSound(threads: nat, trace: seq<Step>, b: Bus, k: nat)
    requires Reached(threads, trace, b) && k < |b.subs|
    ensures |b.chans| == |b.subs| && Sound(b.chans[k], b.subs[k].capacity)
  {
    RunOrderly(Start(threads), trace);
  }

  /** What a run leads to, its beginning led towards: the later state is reached from the
      earlier one. */
  lemma {:induction false} RunSplits(b: Bus, trace: seq<Step>, next: seq<Step>)
    requires Run(b, trace).Some? && Run(b, next).Some? && trace <= next
    ensures Run(Run(b, trace).value, next[|trace|..]) == Run(b, next)
    decreases |trace|
  {
    if trace == [] {
      assert next[0..] == next;
    } else {
      assert trace[0] == next[0] && trace[1..] <= next[1..];
      assert next[1..][|trace[1..]|..] == next[|trace|..];
      RunSplits(After(b, trace[0]), trace[1..], next[1..]);
    }
  }
}
