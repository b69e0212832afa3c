/** Conservation of the bus metrics: at every moment each counter differs from what the
    completed sends, the refusals and the channels' histories add up to exactly by what the
    sends under way still owe it. */
module VirtualBusMetrics {
  import opened Bytes
  import opened Frames
  import opened Channel
  import opened VirtualBus
  import opened VirtualBusRuns
  import opened VirtualBusReach
  import opened VirtualBusRegions
  import Objects = VirtualBusObject

  /** The accounts: a counter against the events it counts. */
  datatype Account =
    | Writes       // write_count_ against successful sends
    | Errors       // error_count_ against failed sends
    | Owed         // deliver_count_ + drop_count_ against matching subscribers
    | Delivers     // deliver_count_ against items taken in
    | Drops        // drop_count_ against refusals by a full channel
    | BytesIn      // bytes_written_ against the data of successful sends
    | BytesOut     // bytes_delivered_ against the data of items taken in

  function Counter(m: Metrics, a: Account): int {
    match a
    case Writes => m.writes
    case Errors => m.errors
    case Owed => m.delivers + m.drops
    case Delivers => m.delivers
    case Drops => m.drops
    case BytesIn => m.bytesWritten
    case BytesOut => m.bytesDelivered
  }

  // ---------------------------------------------------------------- what the counters count

  /** What a completed send stands for in an account. */
  function Worth(r: Done, a: Account): int {
    if a.Errors? then (if r.outcome.Sent? then 0 else 1)
    else if !r.outcome.Sent? then 0
    else match a
         case Writes => 1
         case Owed => Due(r.among, r.frame, 0)
         case BytesIn => |r.frame.data|
         case _ => 0
  }

  /** And a refusal: a closed channel is passed over, or credited all the same. */
  function Weight(r: Refusal, a: Account): int {
    match a
    case Owed => if r.why.ShutPassed? then -1 else 0
    case Delivers => if r.why.ShutCredited? then 1 else 0
    case Drops => if r.why.Full? then 1 else 0
    case BytesOut => if r.why.ShutCredited? then |r.item.frame.data| else 0
    case _ => 0
  }

  /** And an item in a channel's history. */
  function Load(it: Item, a: Account): int {
    match a
    case Delivers => 1
    case BytesOut => |it.frame.data|
    case _ => 0
  }

  function OverResults(results: seq<Done>, a: Account): int {
    if results == [] then 0
    else OverResults(results[..|results| - 1], a) + Worth(results[|results| - 1], a)
  }

  function OverRefusals(refusals: seq<Refusal>, a: Account): int {
    if refusals == [] then 0
    else OverRefusals(refusals[..|refusals| - 1], a) + Weight(refusals[|refusals| - 1], a)
  }

  function OverItems(items: seq<Item>, a: Account): int {
    if items == [] then 0
    else OverItems(items[..|items| - 1], a) + Load(items[|items| - 1], a)
  }

  function OverChannels(chans: seq<State<Item>>, a: Account): int {
    if chans == [] then 0 else OverItems(chans[0].accepted, a) + OverChannels(chans[1..], a)
  }

  function Happened(b: Bus, a: Account): int {
    OverResults(b.results, a) + OverRefusals(b.refusals, a) + OverChannels(b.chans, a)
  }

  /** What a send under way will still add to the counter, less what its return will add
      to what the counter counts. */
  function Pending(pc: Pc, subs: seq<Subscription>, a: Account): int {
    match a
    case Writes => if Sends(pc) && !pc.Counting? then -1 else 0
    case Errors => 0
    case Owed =>
      (match pc
       case Looping(f, k) => Due(subs, f, k) - Due(subs, f, 0)
       case Crediting(f, k) => 1 + Due(subs, f, k + 1) - Due(subs, f, 0)
       case Dropping(f, k) => 1 + Due(subs, f, k + 1) - Due(subs, f, 0)
       case CreditingBytes(f, k) => Due(subs, f, k + 1) - Due(subs, f, 0)
       case _ => 0)
    case Delivers => if pc.Crediting? then 1 else 0
    case Drops => if pc.Dropping? then 1 else 0
    case BytesIn => if Sends(pc) && !pc.Counting? && !pc.CountingBytes? then -|pc.f.data| else 0
    case BytesOut => if pc.Crediting? || pc.CreditingBytes? then |pc.f.data| else 0
  }

  function TotalPending(pcs: seq<Pc>, subs: seq<Subscription>, a: Account): int {
    if pcs == [] then 0
    else Pending(pcs[0], subs, a) + TotalPending(pcs[1..], subs, a)
  }

  ghost predicate Balanced(b: Bus, a: Account) {
    Counter(b.m, a) + TotalPending(b.pcs, b.subs, a) == Happened(b, a)
  }

  // ---------------------------------------------------------------- sums

  lemma {:induction false} PendingUpdate(pcs: seq<Pc>, t: nat, pc: Pc, subs: seq<Subscription>, a: Account)
    requires t < |pcs|
    ensures TotalPending(pcs[t := pc], subs, a)
         == TotalPending(pcs, subs, a) - Pending(pcs[t], subs, a) + Pending(pc, subs, a)
  {
    var upd := pcs[t := pc];
    if t == 0 {
      assert upd[1..] == pcs[1..];
    } else {
      assert upd[1..] == pcs[1..][t - 1 := pc];
      PendingUpdate(pcs[1..], t - 1, pc, subs, a);
    }
  }

  lemma {:induction false} NothingPending(pcs: seq<Pc>, subs: seq<Subscription>, a: Account)
    requires forall t :: 0 <= t < |pcs| ==> !Holds(pcs[t])
    ensures TotalPending(pcs, subs, a) == 0
  {
    if pcs != [] {
      NothingPending(pcs[1..], subs, a);
    }
  }

  lemma ResultsSnoc(results: seq<Done>, r: Done, a: Account)
    ensures OverResults(results + [r], a) == OverResults(results, a) + Worth(r, a)
  {
    assert (results + [r])[..|results|] == results;
  }

  lemma RefusalsSnoc(refusals: seq<Refusal>, r: Refusal, a: Account)
    ensures OverRefusals(refusals + [r], a) == OverRefusals(refusals, a) + Weight(r, a)
  {
    assert (refusals + [r])[..|refusals|] == refusals;
  }

  lemma ItemsSnoc(items: seq<Item>, it: Item, a: Account)
    ensures OverItems(items + [it], a) == OverItems(items, a) + Load(it, a)
  {
    assert (items + [it])[..|items|] == items;
  }

  lemma {:induction false} ChannelsUpdate(chans: seq<State<Item>>, i: nat, ch: State<Item>, a: Account)
    requires i < |chans|
    ensures OverChannels(chans[i := ch], a)
         == OverChannels(chans, a) - OverItems(chans[i].accepted, a) + OverItems(ch.accepted, a)
  {
    var upd := chans[i := ch];
    if i == 0 {
      assert upd[1..] == chans[1..];
    } else {
      assert upd[1..] == chans[1..][i - 1 := ch];
      ChannelsUpdate(chans[1..], i - 1, ch, a);
    }
  }

  lemma {:induction false} ChannelsSnoc(chans: seq<State<Item>>, a: Account)
    ensures OverChannels(chans + [Empty()], a) == OverChannels(chans, a)
  {
    if chans == [] {
      assert (chans + [Empty()])[1..] == [];
    } else {
      assert (chans + [Empty()])[1..] == chans[1..] + [Empty()];
      ChannelsSnoc(chans[1..], a);
    }
  }

  // ---------------------------------------------------------------- every step balances

  /** What a send comes to owe at a subscriber that wants its frame: as much as the item in
      the channel, or the refusal, stands for. */
  lemma OwedAt(subs: seq<Subscription>, k: nat, item: Item, held: nat, a: Account)
    requires k < |subs| && WantsFrame(subs[k], item.frame)
    ensures var f := item.frame; var owed := Pending(Looping(f, k), subs, a);
      && Pending(Crediting(f, k), subs, a) - owed == Load(item, a) == Weight(Refusal(k, item, ShutCredited, held), a)
      && Pending(Dropping(f, k), subs, a) - owed == Weight(Refusal(k, item, Full, held), a)
      && Pending(Looping(f, k + 1), subs, a) - owed == Weight(Refusal(k, item, ShutPassed, held), a)
  {
  }

  lemma TakenOwes(b: Bus, t: nat, a: Account)
    requires Orderly(b) && Enabled(b, Advance(t)) && Delivering(b, t) && Added(b, t) == []
    ensures var e, k, item := Deliver(b, t), b.pcs[t].k, Present(b, t);
      && e.refusals == b.refusals && e.chans[k].accepted == b.chans[k].accepted + [item]
      && Pending(e.pc, b.subs, a) - Pending(b.pcs[t], b.subs, a) == Load(item, a)
  {
    var k, item := b.pcs[t].k, Present(b, t);
    OwedAt(b.subs, k, item, 0, a);
    DeliverySound(b.subs[k], b.chans[k], item, item.frame, k);
    assert b.refusals + [] == b.refusals;
  }

  lemma RefusedOwes(b: Bus, t: nat, a: Account)
    requires Orderly(b) && Enabled(b, Advance(t)) && Delivering(b, t) && Added(b, t) != []
    ensures var e, r := Deliver(b, t), Added(b, t)[0];
      && e.refusals == b.refusals + [r] && e.chans == b.chans
      && Pending(e.pc, b.subs, a) - Pending(b.pcs[t], b.subs, a) == Weight(r, a)
  {
    var k, item := b.pcs[t].k, Present(b, t);
    OwedAt(b.subs, k, item, |b.chans[k].buf|, a);
    DeliverySound(b.subs[k], b.chans[k], item, item.frame, k);
    assert b.chans[k := b.chans[k]] == b.chans;
  }

  /** A delivery adds to the channel or to the refusals what the send then owes. */
  lemma DeliveryOwes(b: Bus, t: nat, a: Account)
    requires Orderly(b) && Enabled(b, Advance(t)) && Delivering(b, t)
    ensures var e := Deliver(b, t);
      Pending(e.pc, b.subs, a) - Pending(b.pcs[t], b.subs, a)
        == OverChannels(e.chans, a) - OverChannels(b.chans, a)
           + OverRefusals(e.refusals, a) - OverRefusals(b.refusals, a)
  {
    var k := b.pcs[t].k;
    if Added(b, t) == [] {
      TakenOwes(b, t, a);
      ItemsSnoc(b.chans[k].accepted, Present(b, t), a);
      ChannelsUpdate(b.chans, k, Deliver(b, t).chans[k], a);
    } else {
      RefusedOwes(b, t, a);
      RefusalsSnoc(b.refusals, Added(b, t)[0], a);
    }
  }

  lemma DeliverBalanced(b: Bus, t: nat, a: Account)
    requires Orderly(b) && Enabled(b, Advance(t)) && Delivering(b, t) && Balanced(b, a)
    ensures Balanced(Advanced(b, t), a)
  {
    var c, e := Advanced(b, t), Deliver(b, t);
    DeliveryOwes(b, t, a);
    PendingUpdate(b.pcs, t, e.pc, b.subs, a);
    assert c.m == b.m && c.results == b.results && c.subs == b.subs;
    assert c.chans == e.chans && c.refusals == e.refusals && c.pcs == b.pcs[t := e.pc];
  }

  /** A region that delivers nothing settles a debt or, when the send returns, adds to what
      the counters count. */
  lemma CountSettles(b: Bus, t: nat, a: Account)
    requires Enabled(b, Advance(t)) && !Delivering(b, t)
    ensures var (pc, m) := Count(b, t);
      Counter(m, a) + Pending(pc, b.subs, a) - (if pc.Idle? then Worth(Record(b, t), a) else 0)
        == Counter(b.m, a) + Pending(b.pcs[t], b.subs, a)
  {
  }

  lemma CountBalanced(b: Bus, t: nat, a: Account)
    requires Enabled(b, Advance(t)) && !Delivering(b, t) && Balanced(b, a)
    ensures Balanced(Advanced(b, t), a)
  {
    CountSettles(b, t, a);
    PendingUpdate(b.pcs, t, Region(b, t).pc, b.subs, a);
    ResultsSnoc(b.results, Record(b, t), a);
  }

  lemma QueueBalanced(b: Bus, step: Step, a: Account)
    requires Enabled(b, step) && (step.Call? || step.Lock?) && Balanced(b, a)
    ensures Balanced(After(b, step), a)
  {
    PendingUpdate(b.pcs, step.t, After(b, step).pcs[step.t], b.subs, a);
  }

  lemma SubscribeBalanced(b: Bus, sub: Subscription, a: Account)
    requires Enabled(b, Subscribe(sub)) && Balanced(b, a)
    ensures Balanced(After(b, Subscribe(sub)), a)
  {
    NothingPending(b.pcs, b.subs, a);
    NothingPending(b.pcs, After(b, Subscribe(sub)).subs, a);
    ChannelsSnoc(b.chans, a);
  }

  /** Taking from a channel and closing it leave its history of items taken in. */
  lemma ChannelBalanced(b: Bus, step: Step, a: Account)
    requires Enabled(b, step) && (step.Take? || step.SelfClose? || step.CloseNext? || step.CloseBegin?)
    requires Balanced(b, a)
    ensures Balanced(After(b, step), a)
  {
    match step
    case Take(i) => ChannelsUpdate(b.chans, i, Pop(b.chans[i]), a);
    case SelfClose(i) => ChannelsUpdate(b.chans, i, Shut(b.chans[i]), a);
    case CloseNext =>
      if b.closer.value < |b.chans| {
        ChannelsUpdate(b.chans, b.closer.value, Shut(b.chans[b.closer.value]), a);
      }
    case _ =>
  }

  lemma StepBalanced(b: Bus, step: Step, a: Account)
    requires Orderly(b) && Enabled(b, step) && Balanced(b, a)
    ensures Balanced(After(b, step), a)
  {
    match step
    case Advance(t) =>
      if Delivering(b, t) {
        DeliverBalanced(b, t, a);
      } else {
        CountBalanced(b, t, a);
      }
    case Call(_, _) => QueueBalanced(b, step, a);
    case Lock(_) => QueueBalanced(b, step, a);
    case Subscribe(sub) => SubscribeBalanced(b, sub, a);
    case _ => ChannelBalanced(b, step, a);
  }

  lemma {:induction false} RunBalanced(b: Bus, steps: seq<Step>, a: Account)
    requires Orderly(b) && Balanced(b, a) && Run(b, steps).Some?
    ensures Balanced(Run(b, steps).value, a)
    decreases |steps|
  {
    if steps != [] {
      StepOrderly(b, steps[0]);
      StepBalanced(b, steps[0], a);
      RunBalanced(After(b, steps[0]), steps[1..], a);
    }
  }

  /** The account of a moment: what is pending is known thread by thread. */
  lemma AlwaysBalanced(threads: nat, steps: seq<Step>, b: Bus, a: Account)
    requires Run(Start(threads), steps) == Some(b)
    ensures Counter(b.m, a) + TotalPending(b.pcs, b.subs, a) == Happened(b, a)
  {
    var s := Start(threads);
    NothingPending(s.pcs, s.subs, a);
    RunBalanced(s, steps, a);
  }

  // ---------------------------------------------------------------- with no send under way

  lemma RestingBalance(threads: nat, steps: seq<Step>, b: Bus, a: Account)
    requires Run(Start(threads), steps) == Some(b)
    requires forall t :: 0 <= t < |b.pcs| ==> b.pcs[t].Idle?
    ensures Counter(b.m, a) == Happened(b, a)
  {
    AlwaysBalanced(threads, steps, b, a);
    NothingPending(b.pcs, b.subs, a);
  }

  lemma {:induction false} ResultsSplit(results: seq<Done>)
    ensures OverResults(results, Writes) + OverResults(results, Errors) == |results|
    ensures OverResults(results, Delivers) == OverResults(results, Drops) == OverResults(results, BytesOut) == 0
  {
    if results != [] {
      ResultsSplit(results[..|results| - 1]);
    }
  }

  lemma {:induction false} RefusalsSplit(refusals: seq<Refusal>)
    ensures OverRefusals(refusals, Writes) == OverRefusals(refusals, Errors) == OverRefusals(refusals, BytesIn) == 0
    ensures (forall r :: r in refusals ==> r.why.Full?) ==>
      && OverRefusals(refusals, Owed) == OverRefusals(refusals, Delivers) == OverRefusals(refusals, BytesOut) == 0
      && OverRefusals(refusals, Drops) == |refusals|
  {
    if refusals != [] {
      var front, last := refusals[..|refusals| - 1], refusals[|refusals| - 1];
      RefusalsSplit(front);
      assert last in refusals && forall r :: r in front ==> r in refusals;
    }
  }

  lemma {:induction false} ItemsSplit(items: seq<Item>, a: Account)
    requires !a.Delivers? && !a.BytesOut?
    ensures OverItems(items, a) == 0
  {
    if items != [] {
      ItemsSplit(items[..|items| - 1], a);
    }
  }

  lemma {:induction false} ChannelsSplit(chans: seq<State<Item>>, a: Account)
    requires !a.Delivers? && !a.BytesOut?
    ensures OverChannels(chans, a) == 0
  {
    if chans != [] {
      ItemsSplit(chans[0].accepted, a);
      ChannelsSplit(chans[1..], a);
    }
  }

  /** What the counters of b come to. */
  ghost predicate Conserved(b: Bus) {
    && b.m.writes == OverResults(b.results, Writes)
    && b.m.writes + b.m.errors == |b.results|
    && b.m.bytesWritten == OverResults(b.results, BytesIn)
    && b.m.delivers + b.m.drops == OverResults(b.results, Owed) + OverRefusals(b.refusals, Owed)
    && b.m.drops == OverRefusals(b.refusals, Drops)
    && b.m.delivers == OverChannels(b.chans, Delivers) + OverRefusals(b.refusals, Delivers)
    && b.m.bytesDelivered == OverChannels(b.chans, BytesOut) + OverRefusals(b.refusals, BytesOut)
    && (b.selfClosed == {} ==>
          && b.m.delivers + b.m.drops == OverResults(b.results, Owed)
          && b.m.drops == |b.refusals|
          && b.m.delivers == OverChannels(b.chans, Delivers)
          && b.m.bytesDelivered == OverChannels(b.chans, BytesOut))
  }

  /** Whenever no send is under way: write_count_ and error_count_ are the successful and the
      failed sends, and bytes_written_ is the data of the successful ones; every subscriber
      matching an accepted frame was credited, dropped, or passed over because it had closed
      its own channel; drop_count_ is the refusals by a full channel; and deliver_count_ and
      bytes_delivered_ are what the channels have taken in, and what was credited for
      channels their subscribers had closed. If no subscriber closes its own channel, the
      counters are the histories, with nothing left over. */
  lemma MetricsConserved(threads: nat, steps: seq<Step>, b: Bus)
    requires Run(Start(threads), steps) == Some(b)
    requires forall t :: 0 <= t < |b.pcs| ==> b.pcs[t].Idle?
    ensures Conserved(b)
  {
    RestingBalance(threads, steps, b, Writes);
    RestingBalance(threads, steps, b, Errors);
    RestingBalance(threads, steps, b, Owed);
    RestingBalance(threads, steps, b, Delivers);
    RestingBalance(threads, steps, b, Drops);
    RestingBalance(threads, steps, b, BytesIn);
    RestingBalance(threads, steps, b, BytesOut);
    SilentSums(b);
    OpenRefusals(threads, steps, b);
  }

  lemma SilentSums(b: Bus)
    ensures OverResults(b.results, Writes) + OverResults(b.results, Errors) == |b.results|
    ensures OverResults(b.results, Delivers) == OverResults(b.results, Drops) == OverResults(b.results, BytesOut) == 0
    ensures OverRefusals(b.refusals, Writes) == OverRefusals(b.refusals, Errors) == 0
    ensures OverRefusals(b.refusals, BytesIn) == 0
    ensures OverChannels(b.chans, Writes) == OverChannels(b.chans, Errors) == OverChannels(b.chans, Owed) == 0
    ensures OverChannels(b.chans, Drops) == OverChannels(b.chans, BytesIn) == 0
  {
    ResultsSplit(b.results);
    RefusalsSplit(b.refusals);
    ChannelsSplit(b.chans, Writes);
    ChannelsSplit(b.chans, Errors);
    ChannelsSplit(b.chans, Owed);
    ChannelsSplit(b.chans, Drops);
    ChannelsSplit(b.chans, BytesIn);
  }

  /** While no subscriber has closed its own channel, only full channels have refused. */
  lemma OpenRefusals(threads: nat, steps: seq<Step>, b: Bus)
    requires Run(Start(threads), steps) == Some(b)
    ensures b.selfClosed == {} ==>
      && OverRefusals(b.refusals, Owed) == OverRefusals(b.refusals, Delivers) == OverRefusals(b.refusals, BytesOut) == 0
      && OverRefusals(b.refusals, Drops) == |b.refusals|
  {
    if b.selfClosed == {} {
      forall r | r in b.refusals ensures r.why.Full? {
        RefusedForAReason(threads, steps, b, r);
      }
      RefusalsSplit(b.refusals);
    }
  }

  // ---------------------------------------------------------------- when the counters are true

  /** A sum over refusals counts none of them exactly when each of them counts nothing. */
  lemma {:induction false} NothingRefused(refusals: seq<Refusal>, a: Account)
    requires !a.Owed?
    ensures OverRefusals(refusals, a) >= 0
    ensures OverRefusals(refusals, a) == 0 <==> forall r :: r in refusals ==> Weight(r, a) == 0
    decreases |refusals|
  {
    if refusals != [] {
      var front, last := refusals[..|refusals| - 1], refusals[|refusals| - 1];
      NothingRefused(front, a);
      assert refusals == front + [last];
    }
  }

  lemma {:induction false} NothingPassedOver(refusals: seq<Refusal>)
    ensures OverRefusals(refusals, Owed) <= 0
    ensures OverRefusals(refusals, Owed) == 0 <==> forall r :: r in refusals ==> !r.why.ShutPassed?
    decreases |refusals|
  {
    if refusals != [] {
      var front, last := refusals[..|refusals| - 1], refusals[|refusals| - 1];
      NothingPassedOver(front);
      assert refusals == front + [last];
    }
  }

  /** Whenever no send is under way: deliver_count_ is the number of items the channels have
      taken in exactly when no delivery was credited for a channel its subscriber had closed;
      bytes_delivered_ is their data exactly when whatever was so credited was empty; and
      deliver_count_ and drop_count_ cover all matching subscribers exactly when none was
      passed over for having closed its channel. */
  lemma CountersTrueExactly(threads: nat, steps: seq<Step>, b: Bus)
    requires Run(Start(threads), steps) == Some(b)
    requires forall t :: 0 <= t < |b.pcs| ==> b.pcs[t].Idle?
    ensures b.m.delivers == OverChannels(b.chans, Delivers) <==> forall r :: r in b.refusals ==> !r.why.ShutCredited?
    ensures b.m.bytesDelivered == OverChannels(b.chans, BytesOut)
            <==> forall r :: r in b.refusals ==> r.why.ShutCredited? ==> r.item.frame.data == []
    ensures b.m.delivers + b.m.drops == OverResults(b.results, Owed)
            <==> forall r :: r in b.refusals ==> !r.why.ShutPassed?
  {
    MetricsConserved(threads, steps, b);
    NothingRefused(b.refusals, Delivers);
    NothingRefused(b.refusals, BytesOut);
    NothingPassedOver(b.refusals);
    assert forall r: Refusal :: Weight(r, Delivers) == 0 <==> !r.why.ShutCredited?;
    assert forall r: Refusal :: Weight(r, BytesOut) == 0 <==> (r.why.ShutCredited? ==> r.item.frame.data == []);
  }

  /** The turn of a subscriber under DropOldest that has closed its channel: credited, and
      the channel as it was. */
  lemma CreditedAllTheSame(threads: nat, trace: seq<Step>, b: Bus, f: Frame) returns (next: seq<Step>, c: Bus)
    requires Reached(threads, trace, b) && Sending(b, 0, Looping(f, 0)) && |b.subs| == 1
    requires WantsFrame(b.subs[0], f) && b.subs[0].policy.DropOldest? && b.chans[0].closed
    ensures Leads(threads, trace, next, c) && Onward(b, c) && Sending(c, 0, Looping(f, 1))
    ensures c.chans == b.chans && c.m.delivers == b.m.delivers + 1
  {
    next, c := DeliverRegion(threads, trace, b, 0, f, 0);
    assert b.chans[0 := b.chans[0]] == b.chans;
    next, c := CreditRegions(threads, next, c, 0, f, 0);
  }

  /** A subscriber under DropOldest takes its place and closes its channel. */
  lemma ClosedSubscriber() returns (steps: seq<Step>, b: Bus)
    ensures Reached(1, steps, b) && Resting(b) && |b.pcs| == 1 && !b.closed && b.selfClosed == {0}
    ensures b.subs == [Subscription([], 1, DropOldest)] && b.chans == [Shut(Empty())]
    ensures b.results == [] && b.calls == [[]] && b.m.delivers == 0
  {
    steps, b := SubscribeRegion(1, [], Start(1), Subscription([], 1, DropOldest));
    steps, b := SelfCloseRegion(1, steps, b, 0);
  }

  /** A run in which deliver_count_ is too high: the one subscriber, under DropOldest, closes its
      channel, and a send that then succeeds is credited though nothing was taken in. */
  lemma ClosedSubscriberIsCredited(f: Frame) returns (steps: seq<Step>, b: Bus)
    requires ValidFrame(f)
    ensures Run(Start(1), steps) == Some(b) && forall t :: 0 <= t < |b.pcs| ==> b.pcs[t].Idle?
    ensures |b.results| == 1 && b.results[0].frame == f && b.results[0].outcome.Sent?
    ensures b.m.delivers == 1 && OverChannels(b.chans, Delivers) == 0
  {
    steps, b := ClosedSubscriber();
    steps, b := CallRegion(1, steps, b, 0, f);
    steps, b := OpenRegions(1, steps, b, 0, f);
    steps, b := CreditedAllTheSame(1, steps, b, f);
    steps, b := ReturnRegion(1, steps, b, 0, Looping(f, 1));
    assert b.chans == [Shut(Empty())];
    assert OverChannels(b.chans, Delivers) == OverItems([], Delivers) + OverChannels(b.chans[1..], Delivers);
  }

  /** The same of the object's own counters, between any two of its calls. */
  lemma ObjectCountersConserved(o: Objects.BusObject)
    requires o.Valid()
    ensures Conserved(o.b)
    ensures o.b.m == o.Counters()
  {
    MetricsConserved(o.threads, o.trace, o.b);
  }
}
