/** ISO 15765-2 segmentation (src/isotp/transport.cpp): the sender and the receiver
    as step machines, and the Conn methods that run them. */
module IsoTp {
  import opened Bytes

  const MAX_PAYLOAD: nat := 4095

  /** The data field of one CAN frame. */
  type pdu = seq<byte>

  datatype Error =
    | InvalidArgument
    | PayloadTooLarge
    | NoBufferSpace
    | BadMessage
    | TimedOutError
    | ConnectionAborted
    | BusError

  /** What waiting on the receive channel yields. */
  datatype Event = Arrived(data: pdu) | TimedOut | Closed

  datatype Config = Config(blockSize: byte, stMin: byte)

  // ---------------------------------------------------------------- frames

  function Min(a: int, b: int): int { if a < b then a else b }

  /** The frames of a queue that one side's wait does not skip. */
  function Keep(q: seq<pdu>, wanted: pdu -> bool): seq<pdu> {
    if q == [] then [] else (if wanted(q[0]) then [q[0]] else []) + Keep(q[1..], wanted)
  }

  lemma {:induction false} KeepSnoc(q: seq<pdu>, d: pdu, wanted: pdu -> bool)
    ensures Keep(q + [d], wanted) == Keep(q, wanted) + (if wanted(d) then [d] else [])
  {
    if q == [] {
      assert q + [d] == [d];
    } else {
      assert (q + [d])[1..] == q[1..] + [d];
      KeepSnoc(q[1..], d, wanted);
    }
  }

  predicate IsConsecutive(d: pdu) { |d| >= 1 && d[0] / 16 == 2 }

  predicate IsFlowControl(d: pdu) { |d| >= 3 && d[0] / 16 == 3 }

  /** The fields of a flow-control frame that the sender acts on. */
  datatype Grant = Grant(status: nat, blockSize: byte)

  const CONTINUE_TO_SEND := 0
  const WAIT := 1
  const OVERFLOW := 2

  function ReadGrant(d: pdu): Grant
    requires IsFlowControl(d)
  {
    Grant(d[0] % 16, d[1])
  }

  function FlowControl(cfg: Config): pdu { [0x30 + CONTINUE_TO_SEND, cfg.blockSize, cfg.stMin] }

  function SingleFrame(payload: seq<byte>): pdu
    requires |payload| <= 7
  {
    [|payload|] + payload
  }

  function FirstFrame(payload: seq<byte>): pdu
    requires |payload| >= 6
  {
    [0x10 + |payload| / 256 % 16, |payload| % 256] + payload[..6]
  }

  function ConsecutiveFrame(payload: seq<byte>, offset: nat, sn: byte): pdu
    requires offset <= |payload|
  {
    [0x20 + sn % 16] + payload[offset..offset + Min(7, |payload| - offset)]
  }

  // ---------------------------------------------------------------- the sender, step by step

  datatype Sender =
    | SSingle
    | SFirst
    | SAwaitFirst
    | SEmit(offset: nat, sn: byte, blockCount: nat, grant: Grant)
    | SAwaitAfterWait(offset: nat, sn: byte)
    | SAwaitBlock(offset: nat, sn: byte)
    | SDone(outcome: Result<(), Error>)

  function SenderStart(payload: seq<byte>): Sender {
    if |payload| == 0 then SDone(Err(InvalidArgument))
    else if |payload| > MAX_PAYLOAD then SDone(Err(PayloadTooLarge))
    else if |payload| <= 7 then SSingle
    else SFirst
  }

  predicate Emits(s: Sender) { s.SSingle? || s.SFirst? || s.SEmit? }

  predicate Listens(s: Sender) { s.SAwaitFirst? || s.SAwaitAfterWait? || s.SAwaitBlock? }

  /** The states that occur while payload is being sent. */
  predicate SenderFits(payload: seq<byte>, s: Sender) {
    match s
    case SSingle => 1 <= |payload| <= 7
    case SFirst | SAwaitFirst => 8 <= |payload| <= MAX_PAYLOAD
    case SEmit(offset, _, _, _) => 6 <= offset < |payload| <= MAX_PAYLOAD
    case SAwaitAfterWait(offset, _) => 6 <= offset < |payload| <= MAX_PAYLOAD
    case SAwaitBlock(offset, _) => 6 <= offset <= |payload| <= MAX_PAYLOAD
    case SDone(_) => true
  }

  /** The head of the loop over consecutive frames. */
  function Turn(payload: seq<byte>, offset: nat, sn: byte, blockCount: nat, grant: Grant): Sender {
    if offset >= |payload| then SDone(Ok(()))
    else if grant.status == WAIT then SAwaitAfterWait(offset, sn)
    else SEmit(offset, sn, blockCount, grant)
  }

  function Emitted(payload: seq<byte>, s: Sender): pdu
    requires Emits(s) && SenderFits(payload, s)
  {
    match s
    case SSingle => SingleFrame(payload)
    case SFirst => FirstFrame(payload)
    case SEmit(offset, sn, _, _) => ConsecutiveFrame(payload, offset, sn)
  }

  function AfterEmit(payload: seq<byte>, s: Sender): (s': Sender)
    requires Emits(s) && SenderFits(payload, s)
    ensures SenderFits(payload, s')
  {
    match s
    case SSingle => SDone(Ok(()))
    case SFirst => SAwaitFirst
    case SEmit(offset, sn, blockCount, grant) =>
      var offset', sn', count := offset + Min(7, |payload| - offset), (sn + 1) % 256, blockCount + 1;
      if grant.blockSize > 0 && count >= grant.blockSize then SAwaitBlock(offset', sn')
      else Turn(payload, offset', sn', count, grant)
  }

  function OnGrant(payload: seq<byte>, s: Sender, grant: Grant): (s': Sender)
    requires Listens(s) && SenderFits(payload, s)
    ensures SenderFits(payload, s')
  {
    match s
    case SAwaitFirst =>
      if grant.status == OVERFLOW then SDone(Err(NoBufferSpace)) else Turn(payload, 6, 1, 0, grant)
    case SAwaitAfterWait(offset, sn) => SEmit(offset, sn, 0, grant)
    case SAwaitBlock(offset, sn) => Turn(payload, offset, sn, 0, grant)
  }

  function SenderHears(payload: seq<byte>, s: Sender, e: Event): (s': Sender)
    requires Listens(s) && SenderFits(payload, s)
    ensures SenderFits(payload, s')
  {
    match e
    case TimedOut => SDone(Err(TimedOutError))
    case Closed => SDone(Err(ConnectionAborted))
    case Arrived(d) => if IsFlowControl(d) then OnGrant(payload, s, ReadGrant(d)) else s
  }

  // ---------------------------------------------------------------- the receiver, step by step

  datatype Receiver =
    | RIdle
    | RGrant(length: nat, buf: seq<byte>, sn: byte, cfInBlock: nat)
    | RCollect(length: nat, buf: seq<byte>, sn: byte, cfInBlock: nat)
    | RDone(outcome: Result<seq<byte>, Error>)

  predicate ReceiverListens(r: Receiver) { r.RIdle? || r.RCollect? }

  function RTurn(length: nat, buf: seq<byte>, sn: byte, cfInBlock: nat): Receiver {
    if |buf| >= length then RDone(Ok(buf)) else RCollect(length, buf, sn, cfInBlock)
  }

  function DeclaredLength(d: pdu): nat
    requires |d| >= 2
  {
    Declared(d[0], d[1])
  }

  function Declared(hi: nat, lo: nat): nat { hi % 16 * 256 + lo }

  function FirstHeard(d: pdu): Receiver {
    if |d| == 0 then RDone(Err(BadMessage))
    else if d[0] / 16 == 0 then
      if d[0] % 16 == 0 || d[0] % 16 > |d| - 1 then RDone(Err(BadMessage))
      else RDone(Ok(d[1..1 + d[0] % 16]))
    else if d[0] / 16 == 1 then
      if |d| < 2 then RDone(Err(BadMessage)) else RGrant(DeclaredLength(d), d[2..], 1, 0)
    else RDone(Err(BadMessage))
  }

  function OnConsecutive(cfg: Config, r: Receiver, d: pdu): Receiver
    requires r.RCollect? && |r.buf| < r.length && IsConsecutive(d)
  {
    if d[0] % 16 != r.sn % 16 || |d| < 2 then RDone(Err(BadMessage))
    else
      var buf := r.buf + d[1..1 + Min(|d| - 1, r.length - |r.buf|)];
      var sn := (r.sn + 1) % 256;
      if cfg.blockSize != 0 && |buf| < r.length then
        if r.cfInBlock + 1 == cfg.blockSize then RGrant(r.length, buf, sn, 0)
        else RTurn(r.length, buf, sn, r.cfInBlock + 1)
      else RTurn(r.length, buf, sn, r.cfInBlock)
  }

  predicate ReceiverFits(r: Receiver) { r.RCollect? ==> |r.buf| < r.length }

  function ReceiverHears(cfg: Config, r: Receiver, e: Event): (r': Receiver)
    requires ReceiverListens(r) && ReceiverFits(r)
    ensures ReceiverFits(r')
  {
    match e
    case TimedOut => RDone(Err(TimedOutError))
    case Closed => RDone(Err(ConnectionAborted))
    case Arrived(d) =>
      if r.RIdle? then FirstHeard(d)
      else if IsConsecutive(d) then OnConsecutive(cfg, r, d)
      else r
  }

  function AfterGrant(r: Receiver): (r': Receiver)
    requires r.RGrant?
    ensures ReceiverFits(r')
  {
    RTurn(r.length, r.buf, r.sn, r.cfInBlock)
  }

  // ---------------------------------------------------------------- whole calls

  /** One call: its result, the frames it put on the bus, the events and the bus
      capacity it left. */
  datatype Call<T> = Call(outcome: Result<T, Error>, sent: seq<pdu>, rest: seq<Event>, credit: nat)

  function Prepend<T>(sent: seq<pdu>, c: Call<T>): Call<T> { c.(sent := sent + c.sent) }

  function Remaining(payload: seq<byte>, s: Sender): nat
    requires SenderFits(payload, s)
  {
    match s
    case SSingle => 1
    case SFirst => |payload| + 2
    case SAwaitFirst => |payload| + 1
    case SEmit(offset, _, _, _) => |payload| - offset
    case SAwaitAfterWait(offset, _) => |payload| - offset
    case SAwaitBlock(offset, _) => |payload| - offset
    case SDone(_) => 0
  }

  /** send from state s, the bus taking credit more frames before it fails, and
      silence after the last event. */
  function RunSender(payload: seq<byte>, s: Sender, rx: seq<Event>, credit: nat): Call<()>
    requires SenderFits(payload, s)
    decreases Remaining(payload, s), |rx|
  {
    if s.SDone? then Call(s.outcome, [], rx, credit)
    else if Emits(s) then
      if credit == 0 then Call(Err(BusError), [], rx, credit)
      else Prepend([Emitted(payload, s)], RunSender(payload, AfterEmit(payload, s), rx, credit - 1))
    else if rx == [] then Call(Err(TimedOutError), [], rx, credit)
    else RunSender(payload, SenderHears(payload, s, rx[0]), rx[1..], credit)
  }

  /** recv from state r. */
  function RunReceiver(cfg: Config, r: Receiver, rx: seq<Event>, credit: nat): Call<seq<byte>>
    requires ReceiverFits(r)
    decreases |rx|, r.RGrant?
  {
    if r.RDone? then Call(r.outcome, [], rx, credit)
    else if r.RGrant? then
      if credit == 0 then Call(Err(BusError), [], rx, credit)
      else Prepend([FlowControl(cfg)], RunReceiver(cfg, AfterGrant(r), rx, credit - 1))
    else if rx == [] then Call(Err(TimedOutError), [], rx, credit)
    else RunReceiver(cfg, ReceiverHears(cfg, r, rx[0]), rx[1..], credit)
  }

  /** The next frame of one kind, skipping all others. */
  function Await(rx: seq<Event>, wanted: pdu -> bool): (Result<pdu, Error>, seq<Event>)
    decreases |rx|
  {
    if rx == [] then (Err(TimedOutError), rx)
    else match rx[0]
      case TimedOut => (Err(TimedOutError), rx[1..])
      case Closed => (Err(ConnectionAborted), rx[1..])
      case Arrived(d) => if wanted(d) then (Ok(d), rx[1..]) else Await(rx[1..], wanted)
  }

  lemma {:induction false} AwaitKind(rx: seq<Event>, wanted: pdu -> bool)
    ensures var (r, rest) := Await(rx, wanted); r.Ok? ==> wanted(r.value)
    decreases |rx|
  {
    if rx != [] && rx[0].Arrived? {
      AwaitKind(rx[1..], wanted);
    }
  }

  /** A listening sender is moved by the next flow control only. */
  lemma {:induction false} SenderAwaits(payload: seq<byte>, s: Sender, rx: seq<Event>, credit: nat)
    requires SenderFits(payload, s) && Listens(s)
    ensures var (r, rest) := Await(rx, IsFlowControl);
      && (r.Ok? ==> IsFlowControl(r.value))
      && RunSender(payload, s, rx, credit) ==
         if r.Ok? then RunSender(payload, OnGrant(payload, s, ReadGrant(r.value)), rest, credit)
         else Call(Err(r.error), [], rest, credit)
    decreases |rx|
  {
    AwaitKind(rx, IsFlowControl);
    if rx != [] && rx[0].Arrived? && !IsFlowControl(rx[0].data) {
      SenderAwaits(payload, s, rx[1..], credit);
    }
  }

  /** A collecting receiver is moved by the next consecutive frame only. */
  lemma {:induction false} ReceiverAwaits(cfg: Config, r: Receiver, rx: seq<Event>, credit: nat)
    requires ReceiverFits(r) && r.RCollect?
    ensures var (o, rest) := Await(rx, IsConsecutive);
      && (o.Ok? ==> IsConsecutive(o.value))
      && RunReceiver(cfg, r, rx, credit) ==
         if o.Ok? then RunReceiver(cfg, OnConsecutive(cfg, r, o.value), rest, credit)
         else Call(Err(o.error), [], rest, credit)
    decreases |rx|
  {
    AwaitKind(rx, IsConsecutive);
    if rx != [] && rx[0].Arrived? && !IsConsecutive(rx[0].data) {
      ReceiverAwaits(cfg, r, rx[1..], credit);
    }
  }

  /** The call whole, after sent has gone out, goes on from sender state s. */
  ghost predicate SenderMidway(whole: Call<()>, payload: seq<byte>, s: Sender, sent: seq<pdu>, rx: seq<Event>,
      credit: nat) {
    SenderFits(payload, s) && whole == Prepend(sent, RunSender(payload, s, rx, credit))
  }

  lemma SenderEmitStep(whole: Call<()>, payload: seq<byte>, s: Sender, sent: seq<pdu>, rx: seq<Event>, credit: nat)
    requires SenderMidway(whole, payload, s, sent, rx, credit) && Emits(s)
    ensures credit == 0 ==> whole == Call(Err(BusError), sent, rx, credit)
    ensures credit > 0 ==>
      SenderMidway(whole, payload, AfterEmit(payload, s), sent + [Emitted(payload, s)], rx, credit - 1)
  {
    if credit > 0 {
      var rest := RunSender(payload, AfterEmit(payload, s), rx, credit - 1);
      assert sent + ([Emitted(payload, s)] + rest.sent) == (sent + [Emitted(payload, s)]) + rest.sent;
    } else {
      assert sent + [] == sent;
    }
  }

  lemma SenderListenStep(whole: Call<()>, payload: seq<byte>, s: Sender, sent: seq<pdu>, rx: seq<Event>, credit: nat)
    requires SenderMidway(whole, payload, s, sent, rx, credit) && Listens(s)
    ensures var (r, rest) := Await(rx, IsFlowControl);
      && (r.Err? ==> whole == Call(Err(r.error), sent, rest, credit))
      && (r.Ok? ==> IsFlowControl(r.value))
      && (r.Ok? ==> SenderMidway(whole, payload, OnGrant(payload, s, ReadGrant(r.value)), sent, rest, credit))
  {
    SenderAwaits(payload, s, rx, credit);
    assert sent + [] == sent;
  }

  /** The same for the receiver. */
  ghost predicate ReceiverMidway(whole: Call<seq<byte>>, cfg: Config, r: Receiver, sent: seq<pdu>, rx: seq<Event>,
      credit: nat) {
    ReceiverFits(r) && whole == Prepend(sent, RunReceiver(cfg, r, rx, credit))
  }

  lemma ReceiverGrantStep(whole: Call<seq<byte>>, cfg: Config, r: Receiver, sent: seq<pdu>, rx: seq<Event>, credit: nat)
    requires ReceiverMidway(whole, cfg, r, sent, rx, credit) && r.RGrant?
    ensures credit == 0 ==> whole == Call(Err(BusError), sent, rx, credit)
    ensures credit > 0 ==>
      ReceiverMidway(whole, cfg, AfterGrant(r), sent + [FlowControl(cfg)], rx, credit - 1)
  {
    if credit > 0 {
      var rest := RunReceiver(cfg, AfterGrant(r), rx, credit - 1);
      assert sent + ([FlowControl(cfg)] + rest.sent) == (sent + [FlowControl(cfg)]) + rest.sent;
    } else {
      assert sent + [] == sent;
    }
  }

  lemma ReceiverCollectStep(whole: Call<seq<byte>>, cfg: Config, r: Receiver, sent: seq<pdu>, rx: seq<Event>,
      credit: nat)
    requires ReceiverMidway(whole, cfg, r, sent, rx, credit) && r.RCollect?
    ensures var (o, rest) := Await(rx, IsConsecutive);
      && (o.Err? ==> whole == Call(Err(o.error), sent, rest, credit))
      && (o.Ok? ==> IsConsecutive(o.value))
      && (o.Ok? ==> ReceiverMidway(whole, cfg, OnConsecutive(cfg, r, o.value), sent, rest, credit))
  {
    ReceiverAwaits(cfg, r, rx, credit);
    assert sent + [] == sent;
  }
}
