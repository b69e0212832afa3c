/** The in-process broadcast bus (src/virtual/bus.cpp) under every interleaving of its
    threads: each lock operation, channel operation and counter update is one step. */
module VirtualBus {
  import opened Bytes
  import opened Frames
  import opened Channel

  datatype Policy = DropNewest | DropOldest | Block

  datatype Subscription = Subscription(filters: seq<Filter>, capacity: nat, policy: Policy)

  /** A frame in a channel, with the sender and the number of its send that put it there. */
  datatype Item = Item(frame: Frame, sender: nat, call: nat)

  /** How far a thread is through send. */
  datatype Pc =
    | Idle
    | Invalid(f: Frame)                  // rejected; error_count_ still to be raised
    | Waiting(f: Frame)                  // for the shared lock
    | Refused(f: Frame)                  // shared lock held, bus closed; error_count_ to be raised
    | Counting(f: Frame)                 // shared lock held; write_count_ to be raised
    | CountingBytes(f: Frame)
    | Looping(f: Frame, k: nat)          // at subscriber k
    | Crediting(f: Frame, k: nat)        // handed to subscriber k; deliver_count_ to be raised
    | CreditingBytes(f: Frame, k: nat)
    | Dropping(f: Frame, k: nat)         // refused by subscriber k; drop_count_ to be raised

  datatype Outcome = Sent | ErrClosed | ErrInvalid

  /** A completed send, and the subscribers there were when it returned. */
  datatype Done = Done(frame: Frame, outcome: Outcome, sender: nat, call: nat, among: seq<Subscription>)

  /** Why a channel did not take an item in: it was full and its policy drops the newest, or
      its subscriber had closed it, which DropNewest passes over and the others credit. */
  datatype Reason = Full | ShutPassed | ShutCredited

  /** An item channel i did not take in while it held so many items. */
  datatype Refusal = Refusal(i: nat, item: Item, why: Reason, held: nat)

  datatype Metrics = Metrics(writes: nat, delivers: nat, drops: nat, bytesWritten: nat, bytesDelivered: nat,
      errors: nat)

  datatype Bus = Bus(
    subs: seq<Subscription>,
    chans: seq<State<Item>>,       // the subscribers' channels, which outlive subs_
    closed: bool,
    closer: Option<nat>,           // close holds the lock and has closed this many channels
    cleared: bool,                 // close has emptied subs_
    selfClosed: set<nat>,          // channels their own subscriber closed
    m: Metrics,
    pcs: seq<Pc>,
    calls: seq<seq<Frame>>,        // the frames of the sends each thread has begun
    results: seq<Done>,
    refusals: seq<Refusal>)

  function Start(threads: nat): Bus {
    Bus([], [], false, None, false, {}, Metrics(0, 0, 0, 0, 0, 0),
        seq(threads, _ => Idle), seq(threads, _ => []), [], [])
  }

  // ---------------------------------------------------------------- locks

  /** Holds mu_ shared. */
  predicate Holds(pc: Pc) { !pc.Idle? && !pc.Invalid? && !pc.Waiting? }

  /** Past the closed_ check of send. */
  predicate Sends(pc: Pc) { Holds(pc) && !pc.Refused? }

  predicate Unlocked(b: Bus) {
    b.closer.None? && forall t :: 0 <= t < |b.pcs| ==> !Holds(b.pcs[t])
  }

  // ---------------------------------------------------------------- steps

  datatype Step =
    | Call(t: nat, f: Frame)
    | Lock(t: nat)
    | Advance(t: nat)               // the next region of thread t's send
    | Subscribe(sub: Subscription)
    | CloseBegin
    | CloseNext
    | Take(i: nat)                  // a subscriber receives
    | SelfClose(i: nat)             // a subscriber closes its channel

  predicate WantsFrame(sub: Subscription, f: Frame) { MatchesAny(sub.filters, f) }

  /** Under Block a full open channel makes the sender wait, the lock in hand. */
  predicate CanDeliver(b: Bus, k: nat)
    requires k < |b.subs| == |b.chans|
  {
    b.subs[k].policy == Block ==> b.chans[k].closed || |b.chans[k].buf| < b.subs[k].capacity
  }

  /** Thread t is about to deliver to the subscriber it has come to. */
  predicate Delivering(b: Bus, t: nat) {
    && t < |b.pcs| && b.pcs[t].Looping? && b.pcs[t].k < |b.subs|
    && WantsFrame(b.subs[b.pcs[t].k], b.pcs[t].f)
  }

  predicate Enabled(b: Bus, step: Step) {
    && |b.chans| == |b.subs| && |b.calls| == |b.pcs|
    && match step
       case Call(t, f) => t < |b.pcs| && b.pcs[t].Idle?
       case Lock(t) => t < |b.pcs| && b.pcs[t].Waiting? && b.closer.None?
       case Advance(t) =>
         && t < |b.pcs| && (Holds(b.pcs[t]) || b.pcs[t].Invalid?)
         && (Delivering(b, t) ==> CanDeliver(b, b.pcs[t].k))
       case Subscribe(sub) => Unlocked(b) && sub.capacity >= 1
       case CloseBegin => Unlocked(b)
       case CloseNext => b.closer.Some?
       case Take(i) => i < |b.chans| && b.chans[i].buf != []
       case SelfClose(i) => i < |b.chans|
  }

  /** What subscriber k's policy makes of an item: the channel and where the send goes on. */
  function Delivery(sub: Subscription, ch: State<Item>, item: Item, f: Frame, k: nat): (State<Item>, Pc) {
    match sub.policy
    case DropNewest =>
      if ch.closed then (ch, Looping(f, k + 1))
      else if |ch.buf| >= sub.capacity then (ch, Dropping(f, k))
      else (Push(ch, item), Crediting(f, k))
    case DropOldest =>
      (if ch.closed || sub.capacity == 0 then ch else PushEvicting(ch, sub.capacity, item), Crediting(f, k))
    case Block =>
      (if ch.closed then ch else Push(ch, item), Crediting(f, k))
  }

  /** How many subscribers from the k-th on want the frame. */
  function Due(subs: seq<Subscription>, f: Frame, k: nat): nat
    decreases |subs| - k
  {
    if k >= |subs| then 0 else (if WantsFrame(subs[k], f) then 1 else 0) + Due(subs, f, k + 1)
  }

  /** What the next region of a send does: where the send goes on (Idle: it returns) and
      the channels, counters and refusals it leaves. */
  datatype Effect = Effect(pc: Pc, chans: seq<State<Item>>, m: Metrics, refusals: seq<Refusal>)

  /** The refusal a delivery ends in, if any. */
  function Refusals(sub: Subscription, ch: State<Item>, item: Item, k: nat): seq<Refusal> {
    if ch.closed then [Refusal(k, item, if sub.policy.DropNewest? then ShutPassed else ShutCredited, |ch.buf|)]
    else if sub.policy.DropNewest? && |ch.buf| >= sub.capacity then [Refusal(k, item, Full, |ch.buf|)]
    else []
  }

  function Deliver(b: Bus, t: nat): Effect
    requires t < |b.pcs| && |b.chans| == |b.subs| && |b.calls| == |b.pcs|
    requires b.pcs[t].Looping? && b.pcs[t].k < |b.subs|
  {
    var f, k := b.pcs[t].f, b.pcs[t].k;
    var item := Item(f, t, |b.calls[t]|);
    var (ch, pc) := Delivery(b.subs[k], b.chans[k], item, f, k);
    Effect(pc, b.chans[k := ch], b.m, b.refusals + Refusals(b.subs[k], b.chans[k], item, k))
  }

  /** A region that delivers nothing moves a counter or the cursor. */
  function Count(b: Bus, t: nat): (Pc, Metrics)
    requires t < |b.pcs|
  {
    match b.pcs[t]
    case Counting(f) => (CountingBytes(f), b.m.(writes := b.m.writes + 1))
    case CountingBytes(f) => (Looping(f, 0), b.m.(bytesWritten := b.m.bytesWritten + |f.data|))
    case Looping(f, k) => (if k >= |b.subs| then Idle else Looping(f, k + 1), b.m)
    case Crediting(f, k) => (CreditingBytes(f, k), b.m.(delivers := b.m.delivers + 1))
    case CreditingBytes(f, k) => (Looping(f, k + 1), b.m.(bytesDelivered := b.m.bytesDelivered + |f.data|))
    case Dropping(f, k) => (Looping(f, k + 1), b.m.(drops := b.m.drops + 1))
    case _ => (Idle, b.m.(errors := b.m.errors + 1))
  }

  function Region(b: Bus, t: nat): Effect
    requires Enabled(b, Advance(t))
  {
    if Delivering(b, t) then Deliver(b, t)
    else var (pc, m) := Count(b, t); Effect(pc, b.chans, m, b.refusals)
  }

  /** What send returns from where it is. */
  function Return(pc: Pc): Outcome {
    if pc.Invalid? then ErrInvalid else if pc.Refused? then ErrClosed else Sent
  }

  /** The record of thread t's send, if it returned now. */
  function Record(b: Bus, t: nat): Done
    requires t < |b.pcs| == |b.calls| && !b.pcs[t].Idle?
  {
    Done(b.pcs[t].f, Return(b.pcs[t]), t, |b.calls[t]|, b.subs)
  }

  function Advanced(b: Bus, t: nat): Bus
    requires Enabled(b, Advance(t))
  {
    var e := Region(b, t);
    b.(pcs := b.pcs[t := e.pc], chans := e.chans, m := e.m, refusals := e.refusals,
       results := if e.pc.Idle? then b.results + [Record(b, t)] else b.results)
  }

  function After(b: Bus, step: Step): Bus
    requires Enabled(b, step)
  {
    match step
    case Call(t, f) =>
      b.(pcs := b.pcs[t := if ValidFrame(f) then Waiting(f) else Invalid(f)], calls := b.calls[t := b.calls[t] + [f]])
    case Lock(t) =>
      var f := b.pcs[t].f;
      b.(pcs := b.pcs[t := if b.closed then Refused(f) else Counting(f)])
    case Advance(t) => Advanced(b, t)
    case Subscribe(sub) =>
      if b.closed then b else b.(subs := b.subs + [sub], chans := b.chans + [Empty()])
    case CloseBegin => if b.closed then b else b.(closed := true, closer := Some(0))
    case CloseNext =>
      var k := b.closer.value;
      if k < |b.chans| then b.(chans := b.chans[k := Shut(b.chans[k])], closer := Some(k + 1))
      else b.(closer := None, cleared := true)
    case Take(i) => b.(chans := b.chans[i := Pop(b.chans[i])])
    case SelfClose(i) => b.(chans := b.chans[i := Shut(b.chans[i])], selfClosed := b.selfClosed + {i})
  }

  function Run(b: Bus, steps: seq<Step>): Option<Bus>
    decreases |steps|
  {
    if steps == [] then Some(b)
    else if !Enabled(b, steps[0]) then None
    else Run(After(b, steps[0]), steps[1..])
  }

  // ---------------------------------------------------------------- locking and closing

  ghost predicate AllSound(b: Bus) {
    && |b.chans| == |b.subs| && |b.calls| == |b.pcs|
    && forall i :: 0 <= i < |b.subs| ==> Sound(b.chans[i], b.subs[i].capacity)
  }

  /** Whoever is past the check of send finds the bus open and close not at work. */
  ghost predicate Locked(b: Bus) {
    && (b.closer.Some? ==> b.closed && !b.cleared && b.closer.value <= |b.chans|)
    && (b.closed ==> b.closer.Some? || b.cleared)
    && (b.cleared ==> b.closed)
    && (forall t :: 0 <= t < |b.pcs| && Sends(b.pcs[t]) ==> !b.closed)
    && (forall t :: 0 <= t < |b.pcs| && Holds(b.pcs[t]) ==> b.closer.None?)
    && (forall t :: 0 <= t < |b.pcs| && b.pcs[t].Refused? ==> b.closed)
  }

  /** close has come past channel i. */
  predicate Swept(b: Bus, i: nat) { b.cleared || (b.closer.Some? && i < b.closer.value) }

  /** Channel i was closed by close if it has come past, else only by its own subscriber. */
  ghost predicate ClosedRight(b: Bus, i: nat)
    requires i < |b.chans|
  {
    && (b.chans[i].closed ==> i in b.selfClosed || Swept(b, i))
    && (Swept(b, i) ==> b.chans[i].closed)
  }

  /** The channels are sound; whoever is past the check of send finds the bus open and
      its channels untouched by close; close closes the channels in order. */
  ghost predicate Orderly(b: Bus) {
    AllSound(b) && Locked(b) && forall i :: 0 <= i < |b.chans| ==> ClosedRight(b, i)
  }

  /** A delivery keeps the channel sound and never closes it. A closed channel takes nothing
      in and only DropNewest passes it over; an open one takes the item in, unless it is full
      under DropNewest. */
  lemma DeliverySound(sub: Subscription, ch: State<Item>, item: Item, f: Frame, k: nat)
    requires Sound(ch, sub.capacity)
    requires sub.policy == Block ==> ch.closed || |ch.buf| < sub.capacity
    ensures var (ch', pc) := Delivery(sub, ch, item, f, k);
      && Sound(ch', sub.capacity) && ch'.closed == ch.closed
      && pc == (if sub.policy.DropNewest? && ch.closed then Looping(f, k + 1)
                else if sub.policy.DropNewest? && |ch.buf| == sub.capacity then Dropping(f, k)
                else Crediting(f, k))
      && (if ch.closed || pc.Dropping? then ch' == ch else ch'.accepted == ch.accepted + [item])
      && (ch' == ch <==> |Refusals(sub, ch, item, k)| == 1)
      && (ch' != ch <==> Refusals(sub, ch, item, k) == [])
      && ch'.gone == ch.gone +
           (if sub.policy.DropOldest? && !ch.closed && |ch.buf| == sub.capacity then [Evicted(ch.buf[0])] else [])
  {
    match sub.policy
    case DropNewest =>
      if !ch.closed && |ch.buf| < sub.capacity {
        PushSound(ch, sub.capacity, item);
      }
    case DropOldest =>
      if !ch.closed {
        PushEvictingSound(ch, sub.capacity, item);
      }
    case Block =>
      if !ch.closed {
        PushSound(ch, sub.capacity, item);
      }
  }

  lemma DeliverOrderly(b: Bus, t: nat)
    requires Orderly(b) && Enabled(b, Advance(t)) && Delivering(b, t)
    ensures Orderly(Advanced(b, t))
  {
    var f, k := b.pcs[t].f, b.pcs[t].k;
    DeliverySound(b.subs[k], b.chans[k], Item(f, t, |b.calls[t]|), f, k);
    var c := Advanced(b, t);
    forall i | 0 <= i < |c.chans| ensures ClosedRight(c, i) {
      assert ClosedRight(b, i);
    }
  }

  lemma CountOrderly(b: Bus, t: nat)
    requires Orderly(b) && Enabled(b, Advance(t)) && !Delivering(b, t)
    ensures Orderly(Advanced(b, t))
  {
    var c := Advanced(b, t);
    forall i | 0 <= i < |c.chans| ensures ClosedRight(c, i) {
      assert ClosedRight(b, i);
    }
  }

  lemma QueueOrderly(b: Bus, step: Step)
    requires Orderly(b) && Enabled(b, step) && (step.Call? || step.Lock?)
    ensures Orderly(After(b, step))
  {
    var c := After(b, step);
    forall i | 0 <= i < |c.chans| ensures ClosedRight(c, i) {
      assert ClosedRight(b, i);
    }
  }

  lemma SubscribeOrderly(b: Bus, sub: Subscription)
    requires Orderly(b) && Enabled(b, Subscribe(sub))
    ensures Orderly(After(b, Subscribe(sub)))
  {
    var c := After(b, Subscribe(sub));
    forall i | 0 <= i < |c.chans| ensures ClosedRight(c, i) {
      if i < |b.chans| {
        assert ClosedRight(b, i);
      }
    }
  }

  lemma CloseOrderly(b: Bus, step: Step)
    requires Orderly(b) && Enabled(b, step) && (step.CloseBegin? || step.CloseNext?)
    ensures Orderly(After(b, step))
  {
    var c := After(b, step);
    forall i | 0 <= i < |c.chans| ensures ClosedRight(c, i) {
      assert ClosedRight(b, i);
    }
  }

  /** What a subscriber does to its channel. */
  lemma ReceiverOrderly(b: Bus, step: Step)
    requires Orderly(b) && Enabled(b, step) && (step.Take? || step.SelfClose?)
    ensures Orderly(After(b, step))
  {
    var c := After(b, step);
    if step.Take? {
      PopSound(b.chans[step.i], b.subs[step.i].capacity, Received(b.chans[step.i].buf[0]));
    }
    forall i | 0 <= i < |c.chans| ensures ClosedRight(c, i) {
      assert ClosedRight(b, i);
    }
  }

  lemma StepOrderly(b: Bus, step: Step)
    requires Orderly(b) && Enabled(b, step)
    ensures Orderly(After(b, step))
  {
    match step
    case Advance(t) =>
      if Delivering(b, t) {
        DeliverOrderly(b, t);
      } else {
        CountOrderly(b, t);
      }
    case Call(_, _) => QueueOrderly(b, step);
    case Lock(_) => QueueOrderly(b, step);
    case Subscribe(sub) => SubscribeOrderly(b, sub);
    case CloseBegin => CloseOrderly(b, step);
    case CloseNext => CloseOrderly(b, step);
    case Take(_) => ReceiverOrderly(b, step);
    case SelfClose(_) => ReceiverOrderly(b, step);
  }
}
