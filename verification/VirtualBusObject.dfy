/** The bus object as it is written: send, subscribe and close change its fields region by
    region, each region a step of the interleaving model. */
module VirtualBusObject {
  import opened Bytes
  import opened Frames
  import opened Channel
  import opened VirtualBus
  import opened VirtualBusRegions

  /** A channel as its mutex guards it; the history is the model's. */
  datatype Queue = Queue(buf: seq<Frame>, closed: bool)

  function FramesOf(items: seq<Item>): (frames: seq<Frame>)
    ensures |frames| == |items|
  {
    seq(|items|, i requires 0 <= i < |items| => items[i].frame)
  }

  function QueueOf(ch: State<Item>): Queue { Queue(FramesOf(ch.buf), ch.closed) }

  // ---------------------------------------------------------------- what a send does to a channel

  /** The channel takes the frame in: its subscriber wants it, nobody has closed it, and it is
      not full under DropNewest. */
  predicate TakesIn(sub: Subscription, q: Queue, f: Frame) {
    WantsFrame(sub, f) && !q.closed && !(sub.policy.DropNewest? && |q.buf| >= sub.capacity)
  }

  /** How a full channel's oldest item makes room: DropOldest evicts it, Block waits until a
      receiver has taken it. */
  function MadeRoom(sub: Subscription, ch: State<Item>): Exit<Item>
    requires ch.buf != []
  {
    if sub.policy.Block? then Received(ch.buf[0]) else Evicted(ch.buf[0])
  }

  /** ch' is ch with the item at its end if it takes the item in, and otherwise unchanged;
      only a full channel lets its oldest go for it. */
  ghost predicate Served(sub: Subscription, ch: State<Item>, ch': State<Item>, item: Item) {
    && Sound(ch, sub.capacity) && Sound(ch', sub.capacity)
    && ch'.closed == ch.closed
    && ch'.accepted == ch.accepted + (if TakesIn(sub, QueueOf(ch), item.frame) then [item] else [])
    && ch'.gone == ch.gone +
         (if TakesIn(sub, QueueOf(ch), item.frame) && |ch.buf| == sub.capacity then [MadeRoom(sub, ch)] else [])
  }

  predicate Credits(sub: Subscription, q: Queue, f: Frame) {
    WantsFrame(sub, f) && (sub.policy.DropNewest? ==> TakesIn(sub, q, f))
  }

  predicate Drops(sub: Subscription, q: Queue, f: Frame) {
    WantsFrame(sub, f) && sub.policy.DropNewest? && !q.closed && |q.buf| >= sub.capacity
  }

  /** How many of the first k subscribers are credited with the frame, and how many drop it. */
  function Credited(subs: seq<Subscription>, queues: seq<Queue>, f: Frame, k: nat): nat
    requires k <= |subs| == |queues|
  {
    if k == 0 then 0
    else Credited(subs, queues, f, k - 1) + if Credits(subs[k - 1], queues[k - 1], f) then 1 else 0
  }

  function Dropped(subs: seq<Subscription>, queues: seq<Queue>, f: Frame, k: nat): nat
    requires k <= |subs| == |queues|
  {
    if k == 0 then 0
    else Dropped(subs, queues, f, k - 1) + if Drops(subs[k - 1], queues[k - 1], f) then 1 else 0
  }

  /** The first k subscribers have been served, the others not yet. */
  ghost predicate ServedUpTo(
    subs: seq<Subscription>, chans: seq<State<Item>>, chans': seq<State<Item>>, item: Item, k: nat)
  {
    && |chans| == |chans'| == |subs|
    && (forall i :: 0 <= i < |chans| && i < k ==> Served(subs[i], chans[i], chans'[i], item))
    && (forall i :: k <= i < |chans| ==> chans'[i] == chans[i])
  }

  /** The counters of one turn, and of the turns up to k. */
  function Charge(m: Metrics, sub: Subscription, q: Queue, f: Frame): Metrics {
    if Credits(sub, q, f) then m.(delivers := m.delivers + 1, bytesDelivered := m.bytesDelivered + |f.data|)
    else if Drops(sub, q, f) then m.(drops := m.drops + 1)
    else m
  }

  function ChargeUpTo(m: Metrics, subs: seq<Subscription>, queues: seq<Queue>, f: Frame, k: nat): Metrics
    requires k <= |subs| == |queues|
  {
    var n := Credited(subs, queues, f, k);
    m.(delivers := m.delivers + n, drops := m.drops + Dropped(subs, queues, f, k),
       bytesDelivered := m.bytesDelivered + n * |f.data|)
  }

  /** The counters once a send is through. */
  function CountSend(m: Metrics, subs: seq<Subscription>, queues: seq<Queue>, f: Frame): Metrics
    requires |subs| == |queues|
  {
    ChargeUpTo(m.(writes := m.writes + 1, bytesWritten := m.bytesWritten + |f.data|), subs, queues, f, |subs|)
  }

  /** The subscriber has no filter, or one whose identifier has the frame's bits wherever its
      mask has a 1. */
  ghost predicate AsksFor(sub: Subscription, f: Frame) {
    sub.filters == [] || exists j :: 0 <= j < |sub.filters| && AgreesWhereMasked(sub.filters[j], f)
  }

  lemma AsksIsWants(sub: Subscription, f: Frame)
    ensures AsksFor(sub, f) <==> WantsFrame(sub, f)
  {
    forall j | 0 <= j < |sub.filters|
      ensures Matches(sub.filters[j], f) <==> AgreesWhereMasked(sub.filters[j], f)
    {
      MatchesBits(sub.filters[j], f);
    }
  }

  /** The i-th channel has the item at its end exactly if its subscriber asks for the frame,
      nobody has closed it and it is not full under DropNewest. */
  ghost predicate HasTaken(
    subs: seq<Subscription>, chans: seq<State<Item>>, chans': seq<State<Item>>, item: Item, i: nat)
    requires i < |subs| == |chans| == |chans'|
  {
    var sub, ch := subs[i], chans[i];
    chans'[i].accepted ==
      if AsksFor(sub, item.frame) && !ch.closed && !(sub.policy.DropNewest? && |ch.buf| >= sub.capacity)
      then ch.accepted + [item] else ch.accepted
  }

  lemma ServedHaveTaken(
    subs: seq<Subscription>, chans: seq<State<Item>>, chans': seq<State<Item>>, item: Item)
    requires ServedUpTo(subs, chans, chans', item, |subs|)
    ensures forall i :: 0 <= i < |subs| ==> HasTaken(subs, chans, chans', item, i)
  {
    forall i | 0 <= i < |subs| ensures HasTaken(subs, chans, chans', item, i) {
      AsksIsWants(subs[i], item.frame);
      assert Served(subs[i], chans[i], chans'[i], item);
      assert chans[i].accepted + [] == chans[i].accepted;
    }
  }

  lemma ServedNext(
    subs: seq<Subscription>, chans: seq<State<Item>>, mid: seq<State<Item>>, chans': seq<State<Item>>, item: Item,
    k: nat)
    requires ServedUpTo(subs, chans, mid, item, k) && k < |subs|
    requires |chans'| == |mid| && chans' == mid[k := chans'[k]] && Served(subs[k], mid[k], chans'[k], item)
    ensures ServedUpTo(subs, chans, chans', item, k + 1)
  {
  }

  lemma NoTurnYet(m: Metrics, subs: seq<Subscription>, queues: seq<Queue>, chans: seq<State<Item>>, f: Frame,
      item: Item)
    requires |subs| == |queues| == |chans|
    ensures ChargeUpTo(m, subs, queues, f, 0) == m && ServedUpTo(subs, chans, chans, item, 0)
  {
  }

  lemma ChargeNext(m: Metrics, subs: seq<Subscription>, queues: seq<Queue>, f: Frame, k: nat)
    requires k < |subs| == |queues|
    ensures Charge(ChargeUpTo(m, subs, queues, f, k), subs[k], queues[k], f) == ChargeUpTo(m, subs, queues, f, k + 1)
  {
    var n, d := Credited(subs, queues, f, k), |f.data|;
    assert (n + 1) * d == n * d + d;
  }

  /** What Delivery makes of the channel, a full one under Block once a receiver took an item. */
  lemma DeliveryServes(sub: Subscription, ch: State<Item>, item: Item, k: nat)
    requires Sound(ch, sub.capacity) && WantsFrame(sub, item.frame)
    requires !sub.policy.Block? || ch.closed || |ch.buf| < sub.capacity
    ensures Served(sub, ch, Delivery(sub, ch, item, item.frame, k).0, item)
    ensures Delivery(sub, ch, item, item.frame, k).1 ==
      if Credits(sub, QueueOf(ch), item.frame) then Crediting(item.frame, k)
      else if Drops(sub, QueueOf(ch), item.frame) then Dropping(item.frame, k)
      else Looping(item.frame, k + 1)
  {
    DeliverySound(sub, ch, item, item.frame, k);
    assert ch.accepted + [] == ch.accepted && ch.gone + [] == ch.gone;
  }

  lemma BlockServes(sub: Subscription, ch: State<Item>, ch': State<Item>, item: Item)
    requires Sound(ch, sub.capacity) && WantsFrame(sub, item.frame) && sub.policy.Block?
    requires !ch.closed && |ch.buf| == sub.capacity && Served(sub, Pop(ch), ch', item)
    ensures Served(sub, ch, ch', item)
  {
    assert ch'.gone == Pop(ch).gone + [] == ch.gone + [Received(ch.buf[0])];
  }

  lemma SkipServes(sub: Subscription, ch: State<Item>, item: Item)
    requires Sound(ch, sub.capacity) && !WantsFrame(sub, item.frame)
    ensures Served(sub, ch, ch, item)
  {
    assert ch.accepted + [] == ch.accepted && ch.gone + [] == ch.gone;
  }

  /** The queues are the model's channels without their histories. */
  ghost predicate Mirrored(queues: seq<Queue>, chans: seq<State<Item>>) {
    |queues| == |chans| && forall i :: 0 <= i < |queues| ==> queues[i] == QueueOf(chans[i])
  }

  /** The buffer and flag one turn of the delivery loop leaves. */
  function Offered(sub: Subscription, q: Queue, f: Frame): Queue {
    if !TakesIn(sub, q, f) then q
    else Queue((if |q.buf| >= sub.capacity && q.buf != [] then q.buf[1..] else q.buf) + [f], false)
  }

  lemma MirroredNext(queues: seq<Queue>, chans: seq<State<Item>>, k: nat, ch: State<Item>)
    requires Mirrored(queues, chans) && k < |chans|
    ensures Mirrored(queues[k := QueueOf(ch)], chans[k := ch])
  {
  }

  /** A subscriber not served yet has the queue it had. */
  lemma StillThere(
    queues: seq<Queue>, chans: seq<State<Item>>, queues': seq<Queue>, chans': seq<State<Item>>,
    subs: seq<Subscription>, item: Item, k: nat)
    requires Mirrored(queues, chans) && Mirrored(queues', chans')
    requires ServedUpTo(subs, chans, chans', item, k) && k < |subs|
    ensures queues'[k] == queues[k]
  {
  }

  lemma QueuePush(ch: State<Item>, item: Item)
    ensures QueueOf(Push(ch, item)) == Queue(FramesOf(ch.buf) + [item.frame], ch.closed)
  {
  }

  lemma QueuePop(ch: State<Item>)
    requires ch.buf != []
    ensures QueueOf(Pop(ch)) == QueueOf(Evict(ch)) == Queue(FramesOf(ch.buf)[1..], ch.closed)
  {
  }

  lemma DeliveryOffers(sub: Subscription, ch: State<Item>, item: Item, k: nat)
    requires Sound(ch, sub.capacity) && WantsFrame(sub, item.frame)
    requires !sub.policy.Block? || ch.closed || |ch.buf| < sub.capacity
    ensures QueueOf(Delivery(sub, ch, item, item.frame, k).0) == Offered(sub, QueueOf(ch), item.frame)
  {
    QueuePush(ch, item);
    if |ch.buf| == sub.capacity {
      QueuePop(ch);
      QueuePush(Evict(ch), item);
    }
  }

  /** b has gone through the turn for subscriber k and become c. */
  ghost predicate Turned(b: Bus, c: Bus, t: nat, f: Frame, k: nat)
    requires k < |b.subs| == |b.chans| && t < |b.calls|
  {
    && Onward(b, c) && Sending(c, t, Looping(f, k + 1))
    && |c.chans| == |b.chans| && c.chans == b.chans[k := c.chans[k]]
    && Served(b.subs[k], b.chans[k], c.chans[k], Item(f, t, |b.calls[t]|))
    && QueueOf(c.chans[k]) == Offered(b.subs[k], QueueOf(b.chans[k]), f)
    && c.m == Charge(b.m, b.subs[k], QueueOf(b.chans[k]), f)
  }

  lemma SkipTurn(threads: nat, trace: seq<Step>, b: Bus, t: nat, f: Frame, k: nat) returns (next: seq<Step>, c: Bus)
    requires Reached(threads, trace, b) && Sending(b, t, Looping(f, k)) && k < |b.subs| && !WantsFrame(b.subs[k], f)
    ensures Leads(threads, trace, next, c) && Turned(b, c, t, f, k)
  {
    ReachedSound(threads, trace, b, k);
    SkipServes(b.subs[k], b.chans[k], Item(f, t, |b.calls[t]|));
    next, c := SkipRegion(threads, trace, b, t, f, k);
  }

  /** The delivery and the counters after it. */
  lemma DeliverTurn(threads: nat, trace: seq<Step>, b: Bus, t: nat, f: Frame, k: nat) returns (next: seq<Step>, c: Bus)
    requires Reached(threads, trace, b) && Sending(b, t, Looping(f, k)) && k < |b.subs|
    requires WantsFrame(b.subs[k], f) && CanDeliver(b, k)
    ensures Leads(threads, trace, next, c) && Turned(b, c, t, f, k)
  {
    ReachedSound(threads, trace, b, k);
    DeliveryServes(b.subs[k], b.chans[k], Item(f, t, |b.calls[t]|), k);
    DeliveryOffers(b.subs[k], b.chans[k], Item(f, t, |b.calls[t]|), k);
    next, c := DeliverRegion(threads, trace, b, t, f, k);
    if Credits(b.subs[k], QueueOf(b.chans[k]), f) {
      next, c := CreditRegions(threads, next, c, t, f, k);
    } else if Drops(b.subs[k], QueueOf(b.chans[k]), f) {
      next, c := DropRegion(threads, next, c, t, f, k);
    }
  }

  lemma ReplaceTwice<T>(s: seq<T>, k: nat, x: T, y: T)
    requires k < |s|
    ensures s[k := x][k := y] == s[k := y] && s[k := x][k] == x
  {
  }

  /** Under Block a sender facing a full open channel waits until a receiver takes an item. */
  lemma WaitTurn(threads: nat, trace: seq<Step>, b: Bus, t: nat, f: Frame, k: nat) returns (next: seq<Step>, c: Bus)
    requires Reached(threads, trace, b) && Sending(b, t, Looping(f, k)) && k < |b.subs|
    requires WantsFrame(b.subs[k], f) && !CanDeliver(b, k)
    ensures Leads(threads, trace, next, c) && Turned(b, c, t, f, k)
  {
    var sub, ch, item := b.subs[k], b.chans[k], Item(f, t, |b.calls[t]|);
    ReachedSound(threads, trace, b, k);
    QueuePop(ch);
    var mid: Bus;
    next, mid := TakeRegion(threads, trace, b, t, Looping(f, k), k);
    ReplaceTwice(b.chans, k, Pop(ch), ch);
    next, c := DeliverTurn(threads, next, mid, t, f, k);
    ReplaceTwice(b.chans, k, Pop(ch), c.chans[k]);
    BlockServes(sub, ch, c.chans[k], item);
  }

  lemma Turn(threads: nat, trace: seq<Step>, b: Bus, t: nat, f: Frame, k: nat) returns (next: seq<Step>, c: Bus)
    requires Reached(threads, trace, b) && Sending(b, t, Looping(f, k)) && k < |b.subs|
    ensures Leads(threads, trace, next, c) && Turned(b, c, t, f, k)
    ensures Sound(b.chans[k], b.subs[k].capacity)
  {
    ReachedSound(threads, trace, b, k);
    if !WantsFrame(b.subs[k], f) {
      next, c := SkipTurn(threads, trace, b, t, f, k);
    } else if CanDeliver(b, k) {
      next, c := DeliverTurn(threads, trace, b, t, f, k);
    } else {
      next, c := WaitTurn(threads, trace, b, t, f, k);
    }
  }

  // ---------------------------------------------------------------- the object

  class BusObject {
    var subs: seq<Subscription>
    var queues: seq<Queue>
    var closed: bool
    var writeCount: nat
    var deliverCount: nat
    var dropCount: nat
    var bytesWritten: nat
    var bytesDelivered: nat
    var errorCount: nat

    /** The model's state, and the run that led to it. */
    ghost const threads: nat
    ghost var b: Bus
    ghost var trace: seq<Step>

    /** The fields are what the model says they are. */
    ghost predicate Mirrors()
      reads this
    {
      Mirrored(queues, b.chans) && b.m == Counters()
    }

    ghost function Counters(): Metrics
      reads this
    {
      Metrics(writeCount, deliverCount, dropCount, bytesWritten, bytesDelivered, errorCount)
    }

    /** Between calls; the subscribers are those of the model until close drops them. */
    ghost predicate Valid()
      reads this
    {
      && Reached(threads, trace, b) && Resting(b) && |b.pcs| == threads && Mirrors() && b.closed == closed
      && subs == if closed then [] else b.subs
    }

    /** The run has gone on from there, and in the way of a send. */
    ghost predicate Since(trace0: seq<Step>, b0: Bus)
      reads this
    {
      trace0 <= trace && Onward(b0, b)
    }

    constructor (ghost threads: nat)
      ensures Valid() && this.threads == threads && subs == [] && !closed && b == Start(threads)
    {
      this.threads := threads;
      subs, queues, closed := [], [], false;
      writeCount, deliverCount, dropCount, bytesWritten, bytesDelivered, errorCount := 0, 0, 0, 0, 0, 0;
      b, trace := Start(threads), [];
    }

    ghost predicate InSend(t: nat, pc: Pc)
      reads this
    {
      Reached(threads, trace, b) && Sending(b, t, pc) && Mirrors() && subs == b.subs && |b.pcs| == threads
    }

    /** Thread t's item for the send it is in. */
    ghost function Present(t: nat): Item
      requires t < |b.pcs| == |b.calls| && !b.pcs[t].Idle?
      reads this
    {
      Item(b.pcs[t].f, t, |b.calls[t]|)
    }

    method Credit(f: Frame)
      modifies this`deliverCount, this`bytesDelivered
      ensures deliverCount == old(deliverCount) + 1 && bytesDelivered == old(bytesDelivered) + |f.data|
    {
      deliverCount := deliverCount + 1;
      bytesDelivered := bytesDelivered + |f.data|;
    }

    method OfferNewest(sub: Subscription, f: Frame, k: nat)
      requires k < |queues| && WantsFrame(sub, f) && sub.policy == DropNewest
      modifies this`queues, this`deliverCount, this`dropCount, this`bytesDelivered
      ensures queues == old(queues[k := Offered(sub, queues[k], f)])
      ensures Counters() == old(Charge(Counters(), sub, queues[k], f))
    {
      var q := queues[k];
      if !q.closed {
        if |q.buf| < sub.capacity {
          queues := queues[k := Queue(q.buf + [f], false)];
          Credit(f);
        } else {
          dropCount := dropCount + 1;
        }
      }
    }

    method OfferOldest(sub: Subscription, f: Frame, k: nat)
      requires k < |queues| && WantsFrame(sub, f) && sub.policy == DropOldest && sub.capacity >= 1
      modifies this`queues, this`deliverCount, this`bytesDelivered
      ensures queues == old(queues[k := Offered(sub, queues[k], f)])
      ensures Counters() == old(Charge(Counters(), sub, queues[k], f))
    {
      var q := queues[k];
      if !q.closed {
        var buf := if |q.buf| >= sub.capacity then q.buf[1..] else q.buf;
        queues := queues[k := Queue(buf + [f], false)];
      }
      Credit(f);
    }

    /** A full open channel makes the sender wait until a receiver takes an item. */
    method AwaitRoom(sub: Subscription, k: nat)
      requires k < |queues| && sub.capacity >= 1
      modifies this`queues
      ensures var q := old(queues[k]);
        queues == old(queues)[k := if !q.closed && |q.buf| >= sub.capacity then Queue(q.buf[1..], false) else q]
    {
      var q := queues[k];
      if !q.closed && |q.buf| >= sub.capacity {
        queues := queues[k := Queue(q.buf[1..], false)];
      }
    }

    method OfferBlocking(sub: Subscription, f: Frame, k: nat)
      requires k < |queues| && WantsFrame(sub, f) && sub.policy == Block && sub.capacity >= 1
      modifies this`queues, this`deliverCount, this`bytesDelivered
      ensures queues == old(queues[k := Offered(sub, queues[k], f)])
      ensures Counters() == old(Charge(Counters(), sub, queues[k], f))
    {
      AwaitRoom(sub, k);
      if !queues[k].closed {
        queues := queues[k := Queue(queues[k].buf + [f], false)];
      }
      Credit(f);
    }

    /** The body of the delivery loop. */
    method Offer(sub: Subscription, f: Frame, k: nat)
      requires k < |queues| && sub.capacity >= 1
      modifies this`queues, this`deliverCount, this`dropCount, this`bytesDelivered
      ensures queues == old(queues[k := Offered(sub, queues[k], f)])
      ensures Counters() == old(Charge(Counters(), sub, queues[k], f))
    {
      var wanted := CheckFilters(sub.filters, f);
      if !wanted {
        return;
      }
      match sub.policy
      case DropNewest => OfferNewest(sub, f, k);
      case DropOldest => OfferOldest(sub, f, k);
      case Block => OfferBlocking(sub, f, k);
    }

    /** One turn of it, as regions of the model. */
    method OfferNext(ghost t: nat, f: Frame, k: nat)
      requires InSend(t, Looping(f, k)) && k < |subs|
      modifies this`queues, this`deliverCount, this`dropCount, this`bytesDelivered, this`b, this`trace
      ensures InSend(t, Looping(f, k + 1)) && Since(old(trace), old(b))
      ensures |b.chans| == |subs| && b.chans == old(b.chans)[k := b.chans[k]]
      ensures Served(subs[k], old(b.chans[k]), b.chans[k], old(Present(t)))
      ensures Counters() == old(Charge(Counters(), subs[k], queues[k], f))
    {
      ghost var chans := b.chans;
      trace, b := Turn(threads, trace, b, t, f, k);
      MirroredNext(queues, chans, k, b.chans[k]);
      Offer(subs[k], f, k);
    }

    /** The delivery loop is at subscriber k, having begun with these queues and counters and
        in this state of the model. */
    ghost predicate Midway(t: nat, f: Frame, k: nat, queues0: seq<Queue>, m0: Metrics, trace0: seq<Step>, b0: Bus)
      reads this
    {
      && InSend(t, Looping(f, k)) && Since(trace0, b0)
      && k <= |subs| == |queues0| && t < |b0.calls| && Mirrored(queues0, b0.chans)
      && ServedUpTo(subs, b0.chans, b.chans, Item(f, t, |b0.calls[t]|), k)
      && Counters() == ChargeUpTo(m0, subs, queues0, f, k)
    }

    lemma AtFirst(t: nat, f: Frame)
      requires InSend(t, Looping(f, 0))
      ensures Midway(t, f, 0, queues, Counters(), trace, b)
    {
      NoTurnYet(Counters(), subs, queues, b.chans, f, Present(t));
    }

    method OfferTurn(
      ghost t: nat, f: Frame, k: nat, ghost queues0: seq<Queue>, ghost m0: Metrics, ghost trace0: seq<Step>,
      ghost b0: Bus)
      requires Midway(t, f, k, queues0, m0, trace0, b0) && k < |subs|
      modifies this`queues, this`deliverCount, this`dropCount, this`bytesDelivered, this`b, this`trace
      ensures Midway(t, f, k + 1, queues0, m0, trace0, b0)
    {
      ghost var mid, item := b.chans, Present(t);
      StillThere(queues0, b0.chans, queues, mid, subs, item, k);
      ChargeNext(m0, subs, queues0, f, k);
      OfferNext(t, f, k);
      ServedNext(subs, b0.chans, mid, b.chans, item, k);
    }

    /** The delivery loop: every subscriber's channel takes the frame in, or not, as its
        filters, its policy and its state ask for, and the counters say so. */
    method OfferAll(ghost t: nat, f: Frame)
      requires InSend(t, Looping(f, 0))
      modifies this`queues, this`deliverCount, this`dropCount, this`bytesDelivered, this`b, this`trace
      ensures Midway(t, f, |subs|, old(queues), old(Counters()), old(trace), old(b))
    {
      var k := 0;
      ghost var queues0, m0, trace0, b0 := queues, Counters(), trace, b;
      AtFirst(t, f);
      while k < |subs|
        invariant Midway(t, f, k, queues0, m0, trace0, b0)
      {
        OfferTurn(t, f, k, queues0, m0, trace0, b0);
        k := k + 1;
      }
    }

    /** A send nobody else's call overlaps, but for receivers, as thread t's next. A valid
        frame on an open bus reaches exactly the subscribers whose channels can take it, at
        the end of each, and every counter moves by what was done; otherwise nothing but
        error_count_ moves. The run of the model goes on from where it was. */
    method Send(ghost t: nat, f: Frame) returns (o: Outcome)
      requires Valid() && t < threads
      modifies this`writeCount, this`bytesWritten, this`queues, this`deliverCount, this`dropCount,
               this`bytesDelivered, this`errorCount, this`b, this`trace
      ensures Valid() && old(trace) <= trace && Run(old(b), trace[|old(trace)|..]) == Some(b)
      ensures o == if !ValidFrame(f) then ErrInvalid else if old(closed) then ErrClosed else Sent
      ensures b.calls == old(b.calls[t := b.calls[t] + [f]]) && b.subs == old(b.subs)
      ensures b.results == old(b.results) + [Done(f, o, t, |b.calls[t]|, b.subs)]
      ensures o.Sent? ==>
        && ServedUpTo(subs, old(b.chans), b.chans, Item(f, t, |b.calls[t]|), |subs|)
        && |old(queues)| == |subs| && Counters() == old(CountSend(Counters(), subs, queues, f))
        && forall i :: 0 <= i < |subs| ==> HasTaken(subs, old(b.chans), b.chans, Item(f, t, |b.calls[t]|), i)
      ensures !o.Sent? ==>
        && queues == old(queues) && b.chans == old(b.chans)
        && Counters() == old(Counters().(errors := errorCount + 1))
    {
      if !ValidFrame(f) {
        Reject(t, f);
        o := ErrInvalid;
      } else {
        o := SendValid(t, f);
      }
      RunSplits(Start(threads), old(trace), trace);
      if o.Sent? {
        ServedHaveTaken(subs, old(b.chans), b.chans, Item(f, t, |b.calls[t]|));
      }
    }

    method Reject(ghost t: nat, f: Frame)
      requires Valid() && t < threads && !ValidFrame(f)
      modifies this`errorCount, this`b, this`trace
      ensures Valid() && old(trace) <= trace
      ensures b.calls == old(b.calls[t := b.calls[t] + [f]]) && b.subs == old(b.subs)
      ensures b.results == old(b.results) + [Done(f, ErrInvalid, t, |b.calls[t]|, b.subs)]
      ensures b.chans == old(b.chans) && errorCount == old(errorCount) + 1
    {
      trace, b := CallRegion(threads, trace, b, t, f);
      Fail(t, Invalid(f));
    }

    method SendValid(ghost t: nat, f: Frame) returns (o: Outcome)
      requires Valid() && t < threads && ValidFrame(f)
      modifies this`writeCount, this`bytesWritten, this`queues, this`deliverCount, this`dropCount,
               this`bytesDelivered, this`errorCount, this`b, this`trace
      ensures Valid() && old(trace) <= trace
      ensures o == if closed then ErrClosed else Sent
      ensures b.calls == old(b.calls[t := b.calls[t] + [f]]) && b.subs == old(b.subs)
      ensures b.results == old(b.results) + [Done(f, o, t, |b.calls[t]|, b.subs)]
      ensures !closed ==>
        && ServedUpTo(subs, old(b.chans), b.chans, Item(f, t, |b.calls[t]|), |subs|)
        && |old(queues)| == |subs| && Counters() == old(CountSend(Counters(), subs, queues, f))
      ensures closed ==>
        && queues == old(queues) && b.chans == old(b.chans)
        && Counters() == old(Counters().(errors := errorCount + 1))
    {
      trace, b := CallRegion(threads, trace, b, t, f);
      o := SendLocked(t, f);
    }

    method Refuse(ghost t: nat, ghost f: Frame)
      requires Reached(threads, trace, b) && Sending(b, t, Waiting(f)) && Mirrors() && b.closed
      modifies this`errorCount, this`b, this`trace
      ensures Reached(threads, trace, b) && Resting(b) && Mirrors() && old(trace) <= trace
      ensures Returned(old(b), b, Done(f, ErrClosed, t, old(|b.calls[t]|), old(b.subs))) && b.chans == old(b.chans)
      ensures errorCount == old(errorCount) + 1
    {
      trace, b := LockRegion(threads, trace, b, t, f);
      Fail(t, Refused(f));
    }

    /** From the shared lock on, which nobody holds against it. */
    method SendLocked(ghost t: nat, f: Frame) returns (o: Outcome)
      requires Reached(threads, trace, b) && Sending(b, t, Waiting(f)) && Mirrors() && |b.pcs| == threads
      requires b.closed == closed && subs == if closed then [] else b.subs
      modifies this`writeCount, this`bytesWritten, this`queues, this`deliverCount, this`dropCount,
               this`bytesDelivered, this`errorCount, this`b, this`trace
      ensures Reached(threads, trace, b) && Resting(b) && Mirrors() && old(trace) <= trace
      ensures o == if closed then ErrClosed else Sent
      ensures Returned(old(b), b, Done(f, if closed then ErrClosed else Sent, t, old(|b.calls[t]|), old(b.subs)))
      ensures !closed ==>
        && ServedUpTo(subs, old(b.chans), b.chans, Item(f, t, |b.calls[t]|), |subs|)
        && |old(queues)| == |subs| && Counters() == old(CountSend(Counters(), subs, queues, f))
      ensures closed ==>
        && queues == old(queues) && b.chans == old(b.chans)
        && Counters() == old(Counters().(errors := errorCount + 1))
    {
      if closed {
        Refuse(t, f);
        return ErrClosed;
      }
      SendOpen(t, f);
      return Sent;
    }

    method Fail(ghost t: nat, ghost pc: Pc)
      requires Reached(threads, trace, b) && Sending(b, t, pc) && Mirrors() && (pc.Invalid? || pc.Refused?)
      modifies this`errorCount, this`b, this`trace
      ensures Reached(threads, trace, b) && Resting(b) && Mirrors() && old(trace) <= trace
      ensures Returned(old(b), b, old(Record(b, t))) && b.chans == old(b.chans)
      ensures errorCount == old(errorCount) + 1
    {
      errorCount := errorCount + 1;
      trace, b := ReturnRegion(threads, trace, b, t, pc);
    }

    /** The delivery loop and the return after it. */
    method Distribute(ghost t: nat, f: Frame)
      requires InSend(t, Looping(f, 0))
      modifies this`queues, this`deliverCount, this`dropCount, this`bytesDelivered, this`b, this`trace
      ensures Reached(threads, trace, b) && Resting(b) && Mirrors() && old(trace) <= trace
      ensures Returned(old(b), b, Done(f, Sent, t, old(|b.calls[t]|), old(b.subs)))
      ensures ServedUpTo(subs, old(b.chans), b.chans, Item(f, t, |b.calls[t]|), |subs|)
      ensures |old(queues)| == |subs| && Counters() == old(ChargeUpTo(Counters(), subs, queues, f, |subs|))
    {
      OfferAll(t, f);
      trace, b := ReturnRegion(threads, trace, b, t, Looping(f, |subs|));
    }

    method CountWrite(ghost t: nat, f: Frame)
      requires InSend(t, Waiting(f)) && !b.closed
      modifies this`writeCount, this`bytesWritten, this`b, this`trace
      ensures InSend(t, Looping(f, 0)) && Since(old(trace), old(b)) && b.chans == old(b.chans)
      ensures Counters() == old(Counters().(writes := writeCount + 1, bytesWritten := bytesWritten + |f.data|))
    {
      writeCount := writeCount + 1;
      bytesWritten := bytesWritten + |f.data|;
      trace, b := OpenRegions(threads, trace, b, t, f);
    }

    method SendOpen(ghost t: nat, f: Frame)
      requires InSend(t, Waiting(f)) && !b.closed
      modifies this`writeCount, this`bytesWritten, this`queues, this`deliverCount, this`dropCount,
               this`bytesDelivered, this`b, this`trace
      ensures Reached(threads, trace, b) && Resting(b) && Mirrors() && old(trace) <= trace
      ensures Returned(old(b), b, Done(f, Sent, t, old(|b.calls[t]|), old(b.subs)))
      ensures ServedUpTo(subs, old(b.chans), b.chans, Item(f, t, |b.calls[t]|), |subs|)
      ensures |old(queues)| == |subs| && Counters() == old(CountSend(Counters(), subs, queues, f))
    {
      CountWrite(t, f);
      Distribute(t, f);
    }

    method Subscribe(sub: Subscription) returns (ok: bool)
      requires Valid() && sub.capacity >= 1
      modifies this`subs, this`queues, this`b, this`trace
      ensures Valid() && old(trace) <= trace && ok == !closed && b.results == old(b.results)
      ensures if ok then subs == old(subs) + [sub] && b.chans == old(b.chans) + [Empty()]
              else subs == old(subs) && b == old(b)
    {
      if closed {
        return false;
      }
      subs, queues := subs + [sub], queues + [Queue([], false)];
      trace, b := SubscribeRegion(threads, trace, b, sub);
      return true;
    }

    method CloseChannels()
      requires Reached(threads, trace, b) && Closing(b, 0) && Mirrors()
      modifies this`queues, this`b, this`trace
      ensures Reached(threads, trace, b) && Closing(b, |b.chans|) && Mirrors() && Since(old(trace), old(b)) &&
        b.m == old(b.m)
      ensures |b.chans| == |old(b.chans)| && forall i :: 0 <= i < |b.chans| ==> b.chans[i] == Shut(old(b.chans)[i])
    {
      var k := 0;
      while k < |queues|
        invariant k <= |queues| == |b.chans| == |old(b.chans)|
        invariant Reached(threads, trace, b) && Closing(b, k) && Mirrors() && Since(old(trace), old(b)) &&
          b.m == old(b.m)
        invariant forall i :: 0 <= i < |b.chans| ==>
          b.chans[i] == if i < k then Shut(old(b.chans)[i]) else old(b.chans)[i]
      {
        queues := queues[k := Queue(queues[k].buf, true)];
        trace, b := CloseNextRegion(threads, trace, b, k);
        k := k + 1;
      }
    }

    /** Closing shuts every channel, keeping what is in it, and drops the subscribers; a
        second close does nothing. */
    method Close()
      requires Valid()
      modifies this`closed, this`subs, this`queues, this`b, this`trace
      ensures Valid() && old(trace) <= trace && closed && subs == [] && b.m == old(b.m) && b.results == old(b.results)
      ensures |b.chans| == |old(b.chans)|
      ensures forall i :: 0 <= i < |b.chans| ==>
        b.chans[i] == if old(closed) then old(b.chans)[i] else Shut(old(b.chans)[i])
    {
      if closed {
        return;
      }
      closed := true;
      trace, b := CloseBeginRegion(threads, trace, b);
      CloseChannels();
      trace, b := CloseEndRegion(threads, trace, b);
      subs := [];
    }
  }
}
