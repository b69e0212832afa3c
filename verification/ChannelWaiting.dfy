/** Who sleeps and who is woken: Chan<T> under every interleaving of senders, receivers,
    timed receivers and close. A step is one mutex-held region; being notified, waking
    without cause and timing out are steps of their own. */
module ChannelWaiting {
  import opened Bytes
  import opened Channel

  type thread = nat

  /** The channel and its two condition variables. A woken thread has left its
      condition variable and not yet got the mutex back: it was notified, or it strayed
      (woke without cause, or its time was up). */
  datatype World<T> = World(
    ch: State<T>,
    sleepR: set<thread>, notifiedR: set<thread>, strayR: set<thread>,
    sleepS: map<thread, T>, notifiedS: map<thread, T>, strayS: map<thread, T>)

  /** pick names the thread notify_one wakes. */
  datatype Step<T> =
    | StartSend(t: thread, value: T, pick: thread)
    | ResumeSend(t: thread, pick: thread)
    | TrySending(value: T, pick: thread)
    | DropOldest(value: T, pick: thread)
    | StartRecv(t: thread, pick: thread)
    | ResumeRecv(t: thread, timeUp: bool, pick: thread)
    | TryReceiving(pick: thread)
    | StrayR(t: thread)
    | StrayS(t: thread)
    | Close

  function Start<T>(): World<T> { World(Empty(), {}, {}, {}, map[], map[], map[]) }

  predicate Busy<T>(w: World<T>, t: thread) {
    t in w.sleepR + w.notifiedR + w.strayR || t in w.sleepS || t in w.notifiedS || t in w.strayS
  }

  /** notify_one wakes a sleeper if there is one. */
  predicate Enabled<T>(w: World<T>, step: Step<T>) {
    match step
    case StartSend(t, _, pick) => !Busy(w, t) && PicksReceiver(w, pick)
    case ResumeSend(t, pick) => (t in w.notifiedS || t in w.strayS) && PicksReceiver(w, pick)
    case TrySending(_, pick) => PicksReceiver(w, pick)
    case DropOldest(_, pick) => PicksReceiver(w, pick)
    case StartRecv(t, pick) => !Busy(w, t) && PicksSender(w, pick)
    case ResumeRecv(t, _, pick) => (t in w.notifiedR || t in w.strayR) && PicksSender(w, pick)
    case TryReceiving(pick) => PicksSender(w, pick)
    case StrayR(t) => t in w.sleepR
    case StrayS(t) => t in w.sleepS
    case Close => true
  }

  predicate PicksReceiver<T>(w: World<T>, pick: thread) { w.sleepR != {} ==> pick in w.sleepR }

  predicate PicksSender<T>(w: World<T>, pick: thread) { w.sleepS.Keys != {} ==> pick in w.sleepS }

  function NotifyReceiver<T>(w: World<T>, pick: thread): World<T> {
    if pick in w.sleepR then w.(sleepR := w.sleepR - {pick}, notifiedR := w.notifiedR + {pick}) else w
  }

  function NotifySender<T>(w: World<T>, pick: thread): World<T> {
    if pick in w.sleepS then w.(sleepS := w.sleepS - {pick}, notifiedS := w.notifiedS[pick := w.sleepS[pick]]) else w
  }

  /** A sender with the mutex. */
  function Sending<T>(w: World<T>, capacity: nat, t: thread, value: T, pick: thread): World<T> {
    if w.ch.closed then w
    else if |w.ch.buf| < capacity then NotifyReceiver(w.(ch := Push(w.ch, value)), pick)
    else w.(sleepS := w.sleepS[t := value])
  }

  /** A receiver with the mutex; timed ones whose time is up do not sleep again. */
  function Receiving<T>(w: World<T>, t: thread, timeUp: bool, pick: thread): World<T> {
    if w.ch.buf != [] then NotifySender(w.(ch := Pop(w.ch)), pick)
    else if w.ch.closed || timeUp then w
    else w.(sleepR := w.sleepR + {t})
  }

  function After<T>(w: World<T>, capacity: nat, step: Step<T>): World<T>
    requires capacity >= 1 && Enabled(w, step)
  {
    match step
    case StartSend(t, value, pick) => Sending(w, capacity, t, value, pick)
    case ResumeSend(t, pick) =>
      var value := if t in w.notifiedS then w.notifiedS[t] else w.strayS[t];
      Sending(w.(notifiedS := w.notifiedS - {t}, strayS := w.strayS - {t}), capacity, t, value, pick)
    case TrySending(value, pick) =>
      if w.ch.closed || |w.ch.buf| >= capacity then w else NotifyReceiver(w.(ch := Push(w.ch, value)), pick)
    case DropOldest(value, pick) =>
      if w.ch.closed then w else NotifyReceiver(w.(ch := PushEvicting(w.ch, capacity, value)), pick)
    case StartRecv(t, pick) => Receiving(w, t, false, pick)
    case ResumeRecv(t, timeUp, pick) =>
      Receiving(w.(notifiedR := w.notifiedR - {t}, strayR := w.strayR - {t}), t, timeUp, pick)
    case TryReceiving(pick) =>
      if w.ch.buf == [] then w else NotifySender(w.(ch := Pop(w.ch)), pick)
    case StrayR(t) => w.(sleepR := w.sleepR - {t}, strayR := w.strayR + {t})
    case StrayS(t) => w.(sleepS := w.sleepS - {t}, strayS := w.strayS[t := w.sleepS[t]])
    case Close =>
      w.(ch := Shut(w.ch),
         sleepR := {}, notifiedR := w.notifiedR + w.sleepR,
         sleepS := map[], notifiedS := w.notifiedS + w.sleepS)
  }

  // ---------------------------------------------------------------- no wake-up is lost

  /** While a receiver sleeps, the notified receivers still to run cover the buffered
      items; while a sender sleeps, the notified senders cover the free slots; once
      closed, nobody sleeps. */
  ghost predicate Inv<T>(w: World<T>, capacity: nat) {
    && Sound(w.ch, capacity)
    && w.sleepR !! w.notifiedR && w.sleepR !! w.strayR && w.notifiedR !! w.strayR
    && w.sleepS.Keys !! w.notifiedS.Keys && w.sleepS.Keys !! w.strayS.Keys && w.notifiedS.Keys !! w.strayS.Keys
    && (w.sleepR != {} ==> |w.notifiedR| >= |w.ch.buf|)
    && (w.sleepS.Keys != {} ==> |w.notifiedS.Keys| >= capacity - |w.ch.buf|)
    && (w.ch.closed ==> w.sleepR == {} && w.sleepS.Keys == {})
  }

  /** Inv but for the two counting clauses. */
  ghost predicate Apart<T>(w: World<T>, capacity: nat) {
    && Sound(w.ch, capacity)
    && w.sleepR !! w.notifiedR && w.sleepR !! w.strayR && w.notifiedR !! w.strayR
    && w.sleepS.Keys !! w.notifiedS.Keys && w.sleepS.Keys !! w.strayS.Keys && w.notifiedS.Keys !! w.strayS.Keys
    && (w.ch.closed ==> w.sleepR == {} && w.sleepS.Keys == {})
  }

  lemma NotifyReceiverKeeps<T>(w: World<T>, capacity: nat, pick: thread)
    requires Apart(w, capacity)
    requires w.sleepR != {} ==> pick in w.sleepR && |w.notifiedR| + 1 >= |w.ch.buf|
    requires w.sleepS.Keys != {} ==> |w.notifiedS.Keys| >= capacity - |w.ch.buf|
    ensures Inv(NotifyReceiver(w, pick), capacity)
  {
    if pick in w.sleepR {
      assert |w.notifiedR + {pick}| == |w.notifiedR| + 1;
    }
  }

  lemma MoveKey<T>(from: map<thread, T>, to: map<thread, T>, t: thread)
    requires t in from && from.Keys !! to.Keys
    ensures (from - {t}).Keys == from.Keys - {t} && to[t := from[t]].Keys == to.Keys + {t}
    ensures |to[t := from[t]].Keys| == |to.Keys| + 1
  {
    assert to[t := from[t]].Keys == to.Keys + {t};
    assert (from - {t}).Keys == from.Keys - {t};
  }

  lemma NotifySenderKeeps<T>(w: World<T>, capacity: nat, pick: thread)
    requires Apart(w, capacity)
    requires w.sleepR != {} ==> |w.notifiedR| >= |w.ch.buf|
    requires w.sleepS.Keys != {} ==> pick in w.sleepS && |w.notifiedS.Keys| + 1 >= capacity - |w.ch.buf|
    ensures Inv(NotifySender(w, pick), capacity)
  {
    if pick in w.sleepS {
      MoveKey(w.sleepS, w.notifiedS, pick);
    }
  }

  lemma PushKeeps<T>(w: World<T>, capacity: nat, value: T, pick: thread)
    requires Apart(w, capacity) && PicksReceiver(w, pick) && !w.ch.closed && |w.ch.buf| < capacity
    requires w.sleepR != {} ==> |w.notifiedR| >= |w.ch.buf|
    requires w.sleepS.Keys != {} ==> |w.notifiedS.Keys| + 1 >= capacity - |w.ch.buf|
    ensures Inv(NotifyReceiver(w.(ch := Push(w.ch, value)), pick), capacity)
  {
    PushSound(w.ch, capacity, value);
    NotifyReceiverKeeps(w.(ch := Push(w.ch, value)), capacity, pick);
  }

  lemma SleepKeeps<T>(w: World<T>, capacity: nat, t: thread, value: T)
    requires Apart(w, capacity) && !w.ch.closed && |w.ch.buf| == capacity
    requires t !in w.sleepS && t !in w.notifiedS && t !in w.strayS
    requires w.sleepR != {} ==> |w.notifiedR| >= |w.ch.buf|
    ensures Inv(w.(sleepS := w.sleepS[t := value]), capacity)
  {
    assert w.sleepS[t := value].Keys == w.sleepS.Keys + {t};
  }

  /** A sender with the mutex, out of the account of notified senders. */
  lemma SendingKeeps<T>(w: World<T>, capacity: nat, t: thread, value: T, pick: thread)
    requires Apart(w, capacity) && PicksReceiver(w, pick)
    requires t !in w.sleepS && t !in w.notifiedS && t !in w.strayS
    requires w.sleepR != {} ==> |w.notifiedR| >= |w.ch.buf|
    requires w.sleepS.Keys != {} ==> |w.notifiedS.Keys| + 1 >= capacity - |w.ch.buf|
    ensures Inv(Sending(w, capacity, t, value, pick), capacity)
  {
    if !w.ch.closed {
      if |w.ch.buf| < capacity {
        PushKeeps(w, capacity, value, pick);
      } else {
        SleepKeeps(w, capacity, t, value);
      }
    }
  }

  lemma PopKeeps<T>(w: World<T>, capacity: nat, pick: thread)
    requires Apart(w, capacity) && PicksSender(w, pick) && w.ch.buf != []
    requires w.sleepR != {} ==> |w.notifiedR| + 1 >= |w.ch.buf|
    requires w.sleepS.Keys != {} ==> |w.notifiedS.Keys| >= capacity - |w.ch.buf|
    ensures Inv(NotifySender(w.(ch := Pop(w.ch)), pick), capacity)
  {
    PopSound(w.ch, capacity, Received(w.ch.buf[0]));
    NotifySenderKeeps(w.(ch := Pop(w.ch)), capacity, pick);
  }

  lemma CloseKeeps<T>(w: World<T>, capacity: nat)
    requires Inv(w, capacity)
    ensures Inv(After(w, capacity, Close), capacity)
  {
    assert (w.notifiedS + w.sleepS).Keys == w.notifiedS.Keys + w.sleepS.Keys;
  }

  lemma ReceivingKeeps<T>(w: World<T>, capacity: nat, t: thread, timeUp: bool, pick: thread)
    requires Apart(w, capacity) && PicksSender(w, pick)
    requires t !in w.sleepR && t !in w.notifiedR && t !in w.strayR
    requires w.sleepR != {} ==> |w.notifiedR| + 1 >= |w.ch.buf|
    requires w.sleepS.Keys != {} ==> |w.notifiedS.Keys| >= capacity - |w.ch.buf|
    ensures Inv(Receiving(w, t, timeUp, pick), capacity)
  {
    if w.ch.buf != [] {
      PopKeeps(w, capacity, pick);
    }
  }

  lemma RemoveKey<T>(m: map<thread, T>, t: thread)
    ensures (m - {t}).Keys == m.Keys - {t}
    ensures |(m - {t}).Keys| >= |m.Keys| - 1
  {
    assert (m - {t}).Keys == m.Keys - {t};
  }

  lemma ResumeSendKeeps<T>(w: World<T>, capacity: nat, t: thread, pick: thread)
    requires Inv(w, capacity) && Enabled(w, ResumeSend(t, pick))
    ensures Inv(After(w, capacity, ResumeSend(t, pick)), capacity)
  {
    RemoveKey(w.notifiedS, t);
    RemoveKey(w.strayS, t);
    var value := if t in w.notifiedS then w.notifiedS[t] else w.strayS[t];
    SendingKeeps(w.(notifiedS := w.notifiedS - {t}, strayS := w.strayS - {t}), capacity, t, value, pick);
  }

  lemma ResumeRecvKeeps<T>(w: World<T>, capacity: nat, t: thread, timeUp: bool, pick: thread)
    requires Inv(w, capacity) && Enabled(w, ResumeRecv(t, timeUp, pick))
    ensures Inv(After(w, capacity, ResumeRecv(t, timeUp, pick)), capacity)
  {
    assert |w.notifiedR - {t}| >= |w.notifiedR| - 1;
    ReceivingKeeps(w.(notifiedR := w.notifiedR - {t}, strayR := w.strayR - {t}), capacity, t, timeUp, pick);
  }

  lemma DropOldestKeeps<T>(w: World<T>, capacity: nat, value: T, pick: thread)
    requires Inv(w, capacity) && Enabled(w, DropOldest(value, pick)) && !w.ch.closed
    ensures Inv(After(w, capacity, DropOldest(value, pick)), capacity)
  {
    PushEvictingSound(w.ch, capacity, value);
    var ch := PushEvicting(w.ch, capacity, value);
    assert |w.ch.buf| <= |ch.buf| <= |w.ch.buf| + 1;
    NotifyReceiverKeeps(w.(ch := ch), capacity, pick);
  }

  lemma StraySKeeps<T>(w: World<T>, capacity: nat, t: thread)
    requires Inv(w, capacity) && t in w.sleepS
    ensures Inv(After(w, capacity, StrayS(t)), capacity)
  {
    MoveKey(w.sleepS, w.strayS, t);
  }

  /** Every step of every thread keeps the account. */
  lemma StepKeeps<T>(w: World<T>, capacity: nat, step: Step<T>)
    requires Inv(w, capacity) && Enabled(w, step)
    ensures Inv(After(w, capacity, step), capacity)
  {
    match step
    case StartSend(t, value, pick) => SendingKeeps(w, capacity, t, value, pick);
    case ResumeSend(t, pick) => ResumeSendKeeps(w, capacity, t, pick);
    case TrySending(value, pick) =>
      if !w.ch.closed && |w.ch.buf| < capacity {
        PushKeeps(w, capacity, value, pick);
      }
    case DropOldest(value, pick) =>
      if !w.ch.closed {
        DropOldestKeeps(w, capacity, value, pick);
      }
    case StartRecv(t, pick) => ReceivingKeeps(w, capacity, t, false, pick);
    case ResumeRecv(t, timeUp, pick) => ResumeRecvKeeps(w, capacity, t, timeUp, pick);
    case TryReceiving(pick) =>
      if w.ch.buf != [] {
        PopKeeps(w, capacity, pick);
      }
    case StrayR(_) =>
    case StrayS(t) => StraySKeeps(w, capacity, t);
    case Close => CloseKeeps(w, capacity);
  }

  // ---------------------------------------------------------------- runs

  function Run<T>(w: World<T>, capacity: nat, steps: seq<Step<T>>): Option<World<T>>
    requires capacity >= 1
    decreases |steps|
  {
    if steps == [] then Some(w)
    else if !Enabled(w, steps[0]) then None
    else Run(After(w, capacity, steps[0]), capacity, steps[1..])
  }

  lemma {:induction false} RunKeeps<T>(w: World<T>, capacity: nat, steps: seq<Step<T>>)
    requires Inv(w, capacity) && Run(w, capacity, steps).Some?
    ensures Inv(Run(w, capacity, steps).value, capacity)
    decreases |steps|
  {
    if steps != [] {
      StepKeeps(w, capacity, steps[0]);
      RunKeeps(After(w, capacity, steps[0]), capacity, steps[1..]);
    }
  }

  /** No thread holds a wake-up it has yet to act on. */
  predicate NobodyDue<T>(w: World<T>) {
    w.notifiedR == {} && w.strayR == {} && w.notifiedS.Keys == {} && w.strayS.Keys == {}
  }

  /** In every run from an empty channel: the waiting account and the item account hold;
      so, once every woken thread has run, a receiver sleeps only on an empty open
      channel, a sender only on a full open one, and never both. */
  lemma NoLostWakeup<T>(capacity: nat, steps: seq<Step<T>>)
    requires capacity >= 1 && Run(Start<T>(), capacity, steps).Some?
    ensures var w := Run(Start<T>(), capacity, steps).value;
      && Inv(w, capacity)
      && (NobodyDue(w) && w.sleepR != {} ==> w.ch.buf == [] && !w.ch.closed && w.sleepS.Keys == {})
      && (NobodyDue(w) && w.sleepS.Keys != {} ==> |w.ch.buf| == capacity && !w.ch.closed && w.sleepR == {})
  {
    RunKeeps(Start<T>(), capacity, steps);
  }

  /** In every run the channel is a bounded FIFO: what was received and evicted is the
      earlier part of what was accepted and the buffer the later, and receivers got theirs
      in the order of acceptance. */
  lemma EveryRunIsFifo<T>(capacity: nat, steps: seq<Step<T>>)
    requires capacity >= 1 && Run(Start<T>(), capacity, steps).Some?
    ensures var ch := Run(Start<T>(), capacity, steps).value.ch;
      && ch.accepted == Items(ch.gone) + ch.buf && |ch.buf| <= capacity
      && Subsequence(ReceivedItems(ch.gone), ch.accepted)
      && |ch.accepted| == |ReceivedItems(ch.gone)| + |EvictedItems(ch.gone)| + |ch.buf|
  {
    RunKeeps(Start<T>(), capacity, steps);
    Conservation(Run(Start<T>(), capacity, steps).value.ch, capacity);
  }

  /** After close nothing more is accepted, whatever the threads still do. */
  lemma {:induction false} ClosedForGood<T>(w: World<T>, capacity: nat, steps: seq<Step<T>>)
    requires Inv(w, capacity) && w.ch.closed && Run(w, capacity, steps).Some?
    ensures var w' := Run(w, capacity, steps).value;
      w'.ch.closed && w'.ch.accepted == w.ch.accepted && w'.sleepR == {} && w'.sleepS.Keys == {}
    decreases |steps|
  {
    if steps != [] {
      StepKeeps(w, capacity, steps[0]);
      ClosedForGood(After(w, capacity, steps[0]), capacity, steps[1..]);
    }
  }

  /** A receiver whose time is up does not sleep again, whatever the channel holds; and one that
      sleeps has found the channel empty and open. */
  lemma TimeUpReturns<T>(w: World<T>, capacity: nat, t: thread, timeUp: bool, pick: thread)
    requires Inv(w, capacity) && Enabled(w, ResumeRecv(t, timeUp, pick))
    requires t !in w.sleepS && t !in w.notifiedS && t !in w.strayS
    ensures var w' := After(w, capacity, ResumeRecv(t, timeUp, pick));
      && (Busy(w', t) <==> w.ch.buf == [] && !w.ch.closed && !timeUp)
      && w'.ch == if w.ch.buf == [] then w.ch else Pop(w.ch)
  {
  }
}
