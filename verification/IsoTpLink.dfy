/** A sending and a receiving Conn joined by two lossless FIFO links, every interleaving
    of their steps allowed. Unrelated frames appear at will, with one restriction: none
    that would open a message of its own gets to the receiver before the First Frame. */
module IsoTpLink {
  import opened Bytes
  import opened IsoTp

  datatype Link = Link(
    s: Sender,
    r: Receiver,
    data: seq<pdu>,   // in flight to the receiver
    fcs: seq<pdu>,    // in flight to the sender
    junk: nat)        // unrelated frames still to appear

  // ---------------------------------------------------------------- steps

  datatype Step =
    | SenderEmits
    | SenderTakes
    | ReceiverGrants
    | ReceiverTakes
    | JunkToSender(d: pdu)
    | JunkToReceiver(d: pdu)

  /** A single frame or a First Frame: recv takes it for the start of a message. */
  predicate OpensMessage(d: pdu) { |d| >= 1 && d[0] / 16 <= 1 }

  predicate Enabled(payload: seq<byte>, l: Link, step: Step) {
    match step
    case SenderEmits => Emits(l.s)
    case SenderTakes => Listens(l.s) && l.fcs != []
    case ReceiverGrants => l.r.RGrant?
    case ReceiverTakes => ReceiverListens(l.r) && l.data != []
    case JunkToSender(d) => l.junk > 0 && !IsFlowControl(d)
    case JunkToReceiver(d) => l.junk > 0 && !IsConsecutive(d) && (l.s.SFirst? ==> !OpensMessage(d))
  }

  predicate Fits(payload: seq<byte>, l: Link) { SenderFits(payload, l.s) && ReceiverFits(l.r) }

  function After(payload: seq<byte>, cfg: Config, l: Link, step: Step): (l': Link)
    requires Fits(payload, l) && Enabled(payload, l, step)
    ensures Fits(payload, l')
  {
    match step
    case SenderEmits => l.(s := AfterEmit(payload, l.s), data := l.data + [Emitted(payload, l.s)])
    case SenderTakes => l.(s := SenderHears(payload, l.s, Arrived(l.fcs[0])), fcs := l.fcs[1..])
    case ReceiverGrants => l.(r := AfterGrant(l.r), fcs := l.fcs + [FlowControl(cfg)])
    case ReceiverTakes => l.(r := ReceiverHears(cfg, l.r, Arrived(l.data[0])), data := l.data[1..])
    case JunkToSender(d) => l.(fcs := l.fcs + [d], junk := l.junk - 1)
    case JunkToReceiver(d) => l.(data := l.data + [d], junk := l.junk - 1)
  }

  /** An unrelated frame gets to the receiver ahead of the First Frame. */
  predicate Overtakes(l: Link, step: Step) { l.s.SFirst? && step.JunkToReceiver? }

  /** Neither Conn can move. */
  predicate Quiescent(payload: seq<byte>, l: Link) {
    && !Enabled(payload, l, SenderEmits) && !Enabled(payload, l, SenderTakes)
    && !Enabled(payload, l, ReceiverGrants) && !Enabled(payload, l, ReceiverTakes)
  }

  function Start(payload: seq<byte>, junk: nat): Link {
    Link(SenderStart(payload), RIdle, [], [], junk)
  }

  // ---------------------------------------------------------------- the invariant

  /** How many consecutive frames the payload takes: ceil((n - 6) / 7). */
  function CfCount(payload: seq<byte>): nat { |payload| / 7 }

  /** How much of the payload the First Frame and i consecutive frames carry. */
  function Carried(payload: seq<byte>, i: nat): nat { Min(|payload|, 6 + 7 * i) }

  /** The k-th consecutive frame, counting from 1. */
  function Cf(payload: seq<byte>, k: nat): pdu
    requires 1 <= k <= CfCount(payload)
  {
    ConsecutiveFrame(payload, 6 + 7 * (k - 1), k % 256)
  }

  /** Consecutive frames j + 1 to i. */
  function Cfs(payload: seq<byte>, j: nat, i: nat): (q: seq<pdu>)
    requires j <= i <= CfCount(payload)
    ensures |q| == i - j
    decreases i - j
  {
    if j == i then [] else [Cf(payload, j + 1)] + Cfs(payload, j + 1, i)
  }

  lemma {:induction false} CfsSnoc(payload: seq<byte>, j: nat, i: nat)
    requires j <= i < CfCount(payload)
    ensures Cfs(payload, j, i + 1) == Cfs(payload, j, i) + [Cf(payload, i + 1)]
    decreases i - j
  {
    if j < i {
      CfsSnoc(payload, j + 1, i);
    }
  }

  /** Blocks completed by x frames; none when BlockSize is 0. */
  function Blocks(b: nat, x: nat): nat
    decreases x
  {
    if b == 0 || x < b then 0 else 1 + Blocks(b, x - b)
  }

  /** Frames into the current block: x % b. */
  function IntoBlock(b: nat, x: nat): nat
    decreases x
  {
    if b == 0 then 0 else if x < b then x else IntoBlock(b, x - b)
  }

  /** Flow controls the receiver has sent once it accepted j of m frames. */
  function Granted(b: nat, m: nat, j: nat, r: Receiver): int
    requires m >= 1
  {
    if r.RIdle? then 0
    else 1 + Blocks(b, Min(j, m - 1)) - (if r.RGrant? then 1 else 0)
  }

  /** Flow controls the sender has taken once it emitted i frames. */
  function Consumed(b: nat, i: nat, s: Sender): int {
    if s.SFirst? || s.SAwaitFirst? then 0
    else 1 + Blocks(b, i) - (if s.SAwaitBlock? then 1 else 0)
  }

  /** The sender's registers after i emitted frames: in particular block_count is
      the number of frames into the current block. */
  predicate SenderAt(payload: seq<byte>, b: byte, s: Sender, i: nat) {
    var m := CfCount(payload);
    i <= m &&
    match s
    case SSingle => false
    case SFirst | SAwaitFirst => i == 0
    case SEmit(offset, sn, blockCount, grant) =>
      && i < m && offset == 6 + 7 * i && sn == (i + 1) % 256
      && blockCount == (if b == 0 then i else IntoBlock(b, i))
      && grant == Grant(CONTINUE_TO_SEND, b)
    case SAwaitAfterWait(_, _) => false
    case SAwaitBlock(offset, sn) =>
      && b != 0 && 1 <= i && IntoBlock(b, i) == 0
      && offset == Carried(payload, i) && sn == (i + 1) % 256
    case SDone(o) => o == Ok(()) && i == m && (b == 0 || IntoBlock(b, m) != 0)
  }

  /** The receiver's registers after j accepted frames: cf_in_block likewise. */
  predicate ReceiverAt(payload: seq<byte>, b: byte, r: Receiver, j: nat) {
    var m := CfCount(payload);
    j <= m &&
    match r
    case RIdle => j == 0
    case RGrant(length, buf, sn, cfInBlock) =>
      && j < m && IntoBlock(b, j) == 0 && (b == 0 ==> j == 0)
      && length == |payload| && buf == payload[..Carried(payload, j)]
      && sn == (j + 1) % 256 && cfInBlock == 0
    case RCollect(length, buf, sn, cfInBlock) =>
      && j < m && length == |payload| && buf == payload[..Carried(payload, j)]
      && sn == (j + 1) % 256 && cfInBlock == IntoBlock(b, j)
    case RDone(o) => j == m && o == Ok(payload)
  }

  ghost predicate QueuesAt(payload: seq<byte>, cfg: Config, l: Link, i: nat, j: nat) {
    var m := CfCount(payload);
    && j <= i <= m
    && m >= 1
    && (l.r.RIdle? ==> if l.s.SFirst? then l.data == [] else l.data != [] && l.data[0] == FirstFrame(payload))
    && (l.s.SFirst? ==> l.r.RIdle?)
    && Keep(l.data, IsConsecutive) == Cfs(payload, j, i)
    && (forall k :: 0 <= k < |l.fcs| && IsFlowControl(l.fcs[k]) ==> l.fcs[k] == FlowControl(cfg))
    && |Keep(l.fcs, IsFlowControl)| == Granted(cfg.blockSize, m, j, l.r) - Consumed(cfg.blockSize, i, l.s)
  }

  ghost predicate InvAt(payload: seq<byte>, cfg: Config, l: Link, i: nat, j: nat) {
    && 8 <= |payload| <= MAX_PAYLOAD
    && SenderAt(payload, cfg.blockSize, l.s, i)
    && ReceiverAt(payload, cfg.blockSize, l.r, j)
    && QueuesAt(payload, cfg, l, i, j)
  }

  lemma StartInv(payload: seq<byte>, cfg: Config, junk: nat)
    requires 8 <= |payload| <= MAX_PAYLOAD
    ensures InvAt(payload, cfg, Start(payload, junk), 0, 0)
  {
  }

  // ---------------------------------------------------------------- every step keeps it

  lemma {:induction false} BlockStep(b: nat, x: nat)
    requires b != 0
    ensures IntoBlock(b, x) < b
    ensures IntoBlock(b, x) + 1 == b ==> Blocks(b, x + 1) == Blocks(b, x) + 1 && IntoBlock(b, x + 1) == 0
    ensures IntoBlock(b, x) + 1 < b ==> Blocks(b, x + 1) == Blocks(b, x) && IntoBlock(b, x + 1) == IntoBlock(b, x) + 1
    decreases x
  {
    if x >= b {
      BlockStep(b, x - b);
    } else if x + 1 == b {
      assert Blocks(b, b) == 1 + Blocks(b, 0) && IntoBlock(b, b) == IntoBlock(b, 0);
    }
  }

  lemma NextInBlock(b: nat, x: nat)
    ensures b != 0 ==> IntoBlock(b, x) < b
    ensures b != 0 && IntoBlock(b, x) + 1 == b ==> Blocks(b, x + 1) == Blocks(b, x) + 1 && IntoBlock(b, x + 1) == 0
    ensures b != 0 && IntoBlock(b, x) + 1 < b ==>
      Blocks(b, x + 1) == Blocks(b, x) && IntoBlock(b, x + 1) == IntoBlock(b, x) + 1
    ensures b == 0 ==> Blocks(b, x + 1) == Blocks(b, x) == IntoBlock(b, x) == IntoBlock(b, x + 1) == 0
  {
    if b != 0 {
      BlockStep(b, x);
    }
  }

  lemma {:induction false} BlocksMonotone(b: nat, x: nat, y: nat)
    requires x <= y
    ensures Blocks(b, x) <= Blocks(b, y)
    decreases y
  {
    if b != 0 && x >= b {
      BlocksMonotone(b, x - b, y - b);
    }
  }

  lemma {:induction false} IntoBlockIsModulo(b: nat, x: nat)
    requires b != 0
    ensures IntoBlock(b, x) == x % b
    decreases x
  {
    if x >= b {
      IntoBlockIsModulo(b, x - b);
      ModuloStep(x - b, b);
    }
  }

  lemma ModuloStep(y: nat, b: nat)
    requires b != 0
    ensures (y + b) % b == y % b
  {
    var q, r, q', r' := y / b, y % b, (y + b) / b, (y + b) % b;
    assert (q + 1) * b == q * b + b;
    Distribute(q', q + 1, b);
    Distribute(q + 1, q', b);
  }

  lemma Distribute(p: int, q: int, b: nat)
    ensures (p - q) * b == p * b - q * b
    ensures p > q ==> (p - q) * b >= b
  {
    if p > q {
      var d := p - q - 1;
      assert (d + 1) * b == d * b + b;
    }
  }

  /** Frames 1 to m - 1 leave something to send, frame m nothing. */
  lemma CarriedLast(payload: seq<byte>, i: nat)
    requires |payload| >= 8 && i <= CfCount(payload)
    ensures Carried(payload, i) == |payload| <==> i == CfCount(payload)
    ensures i < CfCount(payload) ==> Carried(payload, i) == 6 + 7 * i
  {
  }

  /** Counting sequence numbers in an octet loses nothing of their low bits. */
  lemma NextSn(k: nat)
    ensures ((k + 1) % 256 + 1) % 256 == (k + 2) % 256
    ensures (k + 1) % 256 % 16 == (k + 1) % 16
  {
    var q, r := (k + 1) / 256, (k + 1) % 256;
    assert k + 1 == 16 * (16 * q) + r;
    assert k + 2 == 256 * q + (r + 1);
  }

  lemma NextOffset(payload: seq<byte>, i: nat)
    requires |payload| >= 8 && i < CfCount(payload)
    ensures var offset := 6 + 7 * i;
      offset < |payload| && offset + Min(7, |payload| - offset) == Carried(payload, i + 1)
  {
  }

  /** The sender once it emitted i frames. */
  function SenderAfter(payload: seq<byte>, b: byte, i: nat): Sender {
    if b != 0 && IntoBlock(b, i) == 0 then SAwaitBlock(Carried(payload, i), (i + 1) % 256)
    else if i == CfCount(payload) then SDone(Ok(()))
    else SEmit(6 + 7 * i, (i + 1) % 256, if b == 0 then i else IntoBlock(b, i), Grant(CONTINUE_TO_SEND, b))
  }

  lemma EmitReaches(payload: seq<byte>, b: byte, s: Sender, i: nat)
    requires 8 <= |payload| <= MAX_PAYLOAD && SenderAt(payload, b, s, i) && s.SEmit?
    ensures SenderFits(payload, s) && AfterEmit(payload, s) == SenderAfter(payload, b, i + 1)
  {
    CarriedLast(payload, i + 1);
    NextOffset(payload, i);
    NextSn(i);
    NextInBlock(b, i);
  }

  /** Emitting frame i + 1 moves the sender's registers on by one frame. */
  lemma EmitsNext(payload: seq<byte>, b: byte, s: Sender, i: nat)
    requires 8 <= |payload| <= MAX_PAYLOAD && SenderAt(payload, b, s, i) && s.SEmit?
    ensures SenderFits(payload, s) && Emitted(payload, s) == Cf(payload, i + 1)
    ensures var s' := AfterEmit(payload, s);
      SenderAt(payload, b, s', i + 1) && Consumed(b, i + 1, s') == Consumed(b, i, s) && !s'.SFirst?
  {
    EmitReaches(payload, b, s, i);
    NextInBlock(b, i);
  }

  lemma FirstFrameKeeps(payload: seq<byte>, cfg: Config, l: Link, i: nat, j: nat)
    requires InvAt(payload, cfg, l, i, j) && l.s.SFirst?
    ensures Fits(payload, l) && InvAt(payload, cfg, After(payload, cfg, l, SenderEmits), 0, j)
  {
    KeepSnoc(l.data, FirstFrame(payload), IsConsecutive);
    FirstFrameHeard(payload);
  }

  lemma CfQueued(payload: seq<byte>, cfg: Config, l: Link, i: nat, j: nat, s': Sender)
    requires InvAt(payload, cfg, l, i, j) && l.s.SEmit? && i < CfCount(payload) && !s'.SFirst?
    requires Consumed(cfg.blockSize, i + 1, s') == Consumed(cfg.blockSize, i, l.s)
    ensures QueuesAt(payload, cfg, l.(s := s', data := l.data + [Cf(payload, i + 1)]), i + 1, j)
  {
    KeepSnoc(l.data, Cf(payload, i + 1), IsConsecutive);
    CfFields(payload, i + 1);
    CfsSnoc(payload, j, i);
  }

  lemma SenderEmitsKeeps(payload: seq<byte>, cfg: Config, l: Link, i: nat, j: nat) returns (i': nat)
    requires InvAt(payload, cfg, l, i, j) && Emits(l.s)
    ensures Fits(payload, l) && InvAt(payload, cfg, After(payload, cfg, l, SenderEmits), i', j)
    ensures if l.s.SFirst? then i' == i == 0 else i' == i + 1
    ensures !After(payload, cfg, l, SenderEmits).s.SFirst?
  {
    if l.s.SFirst? {
      i' := 0;
      FirstFrameKeeps(payload, cfg, l, i, j);
    } else {
      i' := i + 1;
      EmitsNext(payload, cfg.blockSize, l.s, i);
      CfQueued(payload, cfg, l, i, j, AfterEmit(payload, l.s));
    }
  }

  /** No flow control ever arrives for a sender that has nothing left to send. */
  lemma NoGrantAfterLast(payload: seq<byte>, cfg: Config, l: Link, i: nat, j: nat)
    requires InvAt(payload, cfg, l, i, j) && l.s.SAwaitBlock? && |Keep(l.fcs, IsFlowControl)| > 0
    ensures i < CfCount(payload)
  {
    var b, m := cfg.blockSize, CfCount(payload);
    if i == m {
      BlocksMonotone(b, Min(j, m - 1), m - 1);
      BlockStep(b, m - 1);
    }
  }

  lemma SenderTakesKeeps(payload: seq<byte>, cfg: Config, l: Link, i: nat, j: nat)
    requires InvAt(payload, cfg, l, i, j) && Listens(l.s) && l.fcs != []
    ensures Fits(payload, l) && InvAt(payload, cfg, After(payload, cfg, l, SenderTakes), i, j)
  {
    assert Keep(l.fcs, IsFlowControl) ==
      (if IsFlowControl(l.fcs[0]) then [l.fcs[0]] else []) + Keep(l.fcs[1..], IsFlowControl);
    if IsFlowControl(l.fcs[0]) {
      if l.s.SAwaitBlock? {
        NoGrantAfterLast(payload, cfg, l, i, j);
      }
      CarriedLast(payload, i);
    }
  }

  lemma GrantMoves(payload: seq<byte>, b: byte, r: Receiver, j: nat)
    requires |payload| >= 8 && ReceiverAt(payload, b, r, j) && r.RGrant?
    ensures var r' := AfterGrant(r);
      && ReceiverAt(payload, b, r', j) && r'.RCollect?
      && Granted(b, CfCount(payload), j, r') == Granted(b, CfCount(payload), j, r) + 1
  {
    CarriedLast(payload, j);
  }

  lemma ReceiverGrantsKeeps(payload: seq<byte>, cfg: Config, l: Link, i: nat, j: nat)
    requires InvAt(payload, cfg, l, i, j) && l.r.RGrant?
    ensures Fits(payload, l) && InvAt(payload, cfg, After(payload, cfg, l, ReceiverGrants), i, j)
  {
    KeepSnoc(l.fcs, FlowControl(cfg), IsFlowControl);
    GrantMoves(payload, cfg.blockSize, l.r, j);
  }

  /** The slice frame k carries. */
  lemma CarriedStep(payload: seq<byte>, k: nat)
    requires |payload| >= 8 && 1 <= k <= CfCount(payload)
    ensures Carried(payload, k - 1) == 6 + 7 * (k - 1)
    ensures Carried(payload, k) == Carried(payload, k - 1) + Min(7, |payload| - Carried(payload, k - 1))
    ensures Carried(payload, k - 1) < Carried(payload, k) <= |payload|
  {
    CarriedLast(payload, k - 1);
  }

  lemma CfBody(payload: seq<byte>, k: nat)
    requires |payload| >= 8 && 1 <= k <= CfCount(payload)
    ensures Carried(payload, k - 1) < Carried(payload, k)
    ensures var d := Cf(payload, k);
      && |d| == 1 + Carried(payload, k) - Carried(payload, k - 1)
      && d[0] == 0x20 + k % 256 % 16
      && d[1..] == payload[Carried(payload, k - 1)..Carried(payload, k)]
  {
    CarriedStep(payload, k);
  }

  lemma SnOfCf(k: nat, first: byte)
    requires first == 0x20 + k % 256 % 16
    ensures first / 16 == 2 && first % 16 == k % 16
  {
    var q := k / 256;
    assert k == 16 * (16 * q) + k % 256;
  }

  lemma CfFields(payload: seq<byte>, k: nat)
    requires |payload| >= 8 && 1 <= k <= CfCount(payload)
    ensures var d := Cf(payload, k);
      && IsConsecutive(d) && d[0] % 16 == k % 16 && |d| >= 2
      && |d| - 1 == Carried(payload, k) - Carried(payload, k - 1)
      && payload[..Carried(payload, k - 1)] + d[1..] == payload[..Carried(payload, k)]
  {
    CfBody(payload, k);
    SnOfCf(k, Cf(payload, k)[0]);
    JoinSlices(payload, Carried(payload, k - 1), Carried(payload, k));
  }

  lemma JoinSlices(s: seq<byte>, lo: nat, hi: nat)
    requires lo <= hi <= |s|
    ensures s[..lo] + s[lo..hi] == s[..hi]
  {
  }

  /** What accepting frame j + 1 does to the buffer. */
  lemma BufferGrows(payload: seq<byte>, j: nat)
    requires |payload| >= 8 && j < CfCount(payload)
    ensures var d, buf := Cf(payload, j + 1), payload[..Carried(payload, j)];
      && IsConsecutive(d) && d[0] % 16 == (j + 1) % 256 % 16 && |d| >= 2 && |buf| < |payload|
      && buf + d[1..1 + Min(|d| - 1, |payload| - |buf|)] == payload[..Carried(payload, j + 1)]
  {
    CfFields(payload, j + 1);
    CarriedLast(payload, j);
    var d := Cf(payload, j + 1);
    assert d[1..1 + (|d| - 1)] == d[1..];
  }

  /** The receiver once it accepted j >= 1 frames. */
  function ReceiverAfter(payload: seq<byte>, b: byte, j: nat): Receiver {
    var n, buf, sn := |payload|, payload[..Carried(payload, j)], (j + 1) % 256;
    if j == CfCount(payload) then RDone(Ok(payload))
    else if b != 0 && IntoBlock(b, j) == 0 then RGrant(n, buf, sn, 0)
    else RCollect(n, buf, sn, IntoBlock(b, j))
  }

  lemma CollectStep(cfg: Config, r: Receiver, d: pdu, buf: seq<byte>)
    requires r.RCollect? && |r.buf| < r.length && IsConsecutive(d) && |d| >= 2 && d[0] % 16 == r.sn % 16
    requires buf == r.buf + d[1..1 + Min(|d| - 1, r.length - |r.buf|)]
    ensures OnConsecutive(cfg, r, d) ==
      if cfg.blockSize != 0 && |buf| < r.length && r.cfInBlock + 1 == cfg.blockSize
      then RGrant(r.length, buf, (r.sn + 1) % 256, 0)
      else RTurn(r.length, buf, (r.sn + 1) % 256,
                 if cfg.blockSize != 0 && |buf| < r.length then r.cfInBlock + 1 else r.cfInBlock)
  {
  }

  lemma CollectReaches(payload: seq<byte>, cfg: Config, r: Receiver, j: nat)
    requires 8 <= |payload| && ReceiverAt(payload, cfg.blockSize, r, j) && r.RCollect?
    ensures |r.buf| < r.length && IsConsecutive(Cf(payload, j + 1))
    ensures OnConsecutive(cfg, r, Cf(payload, j + 1)) == ReceiverAfter(payload, cfg.blockSize, j + 1)
  {
    BufferGrows(payload, j);
    CarriedLast(payload, j + 1);
    NextInBlock(cfg.blockSize, j);
    NextSn(j);
    assert payload[..|payload|] == payload;
    CollectStep(cfg, r, Cf(payload, j + 1), payload[..Carried(payload, j + 1)]);
  }

  /** The right next consecutive frame moves the receiver on by one. */
  lemma AcceptsNext(payload: seq<byte>, cfg: Config, r: Receiver, j: nat)
    requires 8 <= |payload| && ReceiverAt(payload, cfg.blockSize, r, j) && r.RCollect?
    ensures ReceiverFits(r) && IsConsecutive(Cf(payload, j + 1)) && |r.buf| < r.length
    ensures var r' := OnConsecutive(cfg, r, Cf(payload, j + 1));
      && ReceiverAt(payload, cfg.blockSize, r', j + 1)
      && Granted(cfg.blockSize, CfCount(payload), j + 1, r') == Granted(cfg.blockSize, CfCount(payload), j, r)
      && !r'.RIdle?
  {
    CollectReaches(payload, cfg, r, j);
    NextInBlock(cfg.blockSize, j);
  }

  lemma FirstFrameHeard(payload: seq<byte>)
    requires 8 <= |payload| <= MAX_PAYLOAD
    ensures FirstHeard(FirstFrame(payload)) == RGrant(|payload|, payload[..6], 1, 0)
    ensures !IsConsecutive(FirstFrame(payload))
  {
    var n, d := |payload|, FirstFrame(payload);
    assert n / 256 % 16 == n / 256;
    assert d[2..] == payload[..6];
  }

  lemma CfHead(payload: seq<byte>, data: seq<pdu>, i: nat, j: nat)
    requires j <= i <= CfCount(payload) && Keep(data, IsConsecutive) == Cfs(payload, j, i)
    requires data != [] && IsConsecutive(data[0])
    ensures j < i && data[0] == Cf(payload, j + 1)
    ensures Keep(data[1..], IsConsecutive) == Cfs(payload, j + 1, i)
  {
    var rest := Keep(data[1..], IsConsecutive);
    assert Keep(data, IsConsecutive) == [data[0]] + rest;
    assert Cfs(payload, j, i) == [Cf(payload, j + 1)] + Cfs(payload, j + 1, i);
    assert rest == ([data[0]] + rest)[1..];
  }

  lemma IdleTakesKeeps(payload: seq<byte>, cfg: Config, l: Link, i: nat, j: nat)
    requires InvAt(payload, cfg, l, i, j) && l.r.RIdle? && l.data != []
    ensures Fits(payload, l) && InvAt(payload, cfg, After(payload, cfg, l, ReceiverTakes), i, j)
  {
    FirstFrameHeard(payload);
  }

  lemma SkipKeeps(payload: seq<byte>, cfg: Config, l: Link, i: nat, j: nat)
    requires InvAt(payload, cfg, l, i, j) && l.r.RCollect? && l.data != [] && !IsConsecutive(l.data[0])
    ensures Fits(payload, l) && InvAt(payload, cfg, After(payload, cfg, l, ReceiverTakes), i, j)
    ensures After(payload, cfg, l, ReceiverTakes).r == l.r
  {
  }

  lemma AcceptKeeps(payload: seq<byte>, cfg: Config, l: Link, i: nat, j: nat)
    requires InvAt(payload, cfg, l, i, j) && l.r.RCollect? && l.data != [] && IsConsecutive(l.data[0])
    ensures Fits(payload, l) && InvAt(payload, cfg, After(payload, cfg, l, ReceiverTakes), i, j + 1)
  {
    CfHead(payload, l.data, i, j);
    AcceptsNext(payload, cfg, l.r, j);
  }

  lemma ReceiverTakesKeeps(payload: seq<byte>, cfg: Config, l: Link, i: nat, j: nat) returns (j': nat)
    requires InvAt(payload, cfg, l, i, j) && ReceiverListens(l.r) && l.data != []
    ensures Fits(payload, l) && InvAt(payload, cfg, After(payload, cfg, l, ReceiverTakes), i, j')
    ensures j' == j + if l.r.RCollect? && IsConsecutive(l.data[0]) then 1 else 0
  {
    j' := j;
    if l.r.RIdle? {
      IdleTakesKeeps(payload, cfg, l, i, j);
    } else if IsConsecutive(l.data[0]) {
      j' := j + 1;
      AcceptKeeps(payload, cfg, l, i, j);
    } else {
      SkipKeeps(payload, cfg, l, i, j);
    }
  }

  lemma JunkToSenderKeeps(payload: seq<byte>, cfg: Config, l: Link, d: pdu, i: nat, j: nat)
    requires InvAt(payload, cfg, l, i, j) && Enabled(payload, l, JunkToSender(d))
    ensures Fits(payload, l) && InvAt(payload, cfg, After(payload, cfg, l, JunkToSender(d)), i, j)
  {
    KeepSnoc(l.fcs, d, IsFlowControl);
  }

  lemma JunkToReceiverKeeps(payload: seq<byte>, cfg: Config, l: Link, d: pdu, i: nat, j: nat)
    requires InvAt(payload, cfg, l, i, j) && Enabled(payload, l, JunkToReceiver(d)) && !l.s.SFirst?
    ensures Fits(payload, l) && InvAt(payload, cfg, After(payload, cfg, l, JunkToReceiver(d)), i, j)
  {
    KeepSnoc(l.data, d, IsConsecutive);
  }

  /** One step from a state of the invariant leads to another, unless an unrelated frame
      overtakes the First Frame. */
  lemma StepKeeps(payload: seq<byte>, cfg: Config, l: Link, step: Step, i: nat, j: nat) returns (i': nat, j': nat)
    requires InvAt(payload, cfg, l, i, j) && Enabled(payload, l, step) && !Overtakes(l, step)
    ensures Fits(payload, l) && InvAt(payload, cfg, After(payload, cfg, l, step), i', j')
    ensures i' == i + if step.SenderEmits? && !l.s.SFirst? then 1 else 0
    ensures j' == j + if step.ReceiverTakes? && l.r.RCollect? && IsConsecutive(l.data[0]) then 1 else 0
    ensures After(payload, cfg, l, step).s.SFirst? ==> l.s.SFirst? && !step.SenderEmits?
  {
    i', j' := i, j;
    match step
    case SenderEmits => i' := SenderEmitsKeeps(payload, cfg, l, i, j);
    case SenderTakes => SenderTakesKeeps(payload, cfg, l, i, j);
    case ReceiverGrants => ReceiverGrantsKeeps(payload, cfg, l, i, j);
    case ReceiverTakes => j' := ReceiverTakesKeeps(payload, cfg, l, i, j);
    case JunkToSender(d) => JunkToSenderKeeps(payload, cfg, l, d, i, j);
    case JunkToReceiver(d) => JunkToReceiverKeeps(payload, cfg, l, d, i, j);
  }

  /** Flow controls the receiver still has to send once it accepted j frames. */
  ghost function FlowsLeft(payload: seq<byte>, cfg: Config, r: Receiver, j: nat): int
    requires |payload| >= 8
  {
    1 + Blocks(cfg.blockSize, CfCount(payload) - 1) - Granted(cfg.blockSize, CfCount(payload), j, r)
  }

  /** Frames on the links, and twice those still to appear. */
  ghost function InFlight(l: Link): nat { 2 * l.junk + |l.data| + |l.fcs| }

  /** Frames still to be emitted or taken, each emission counting twice. */
  ghost function ToDo(payload: seq<byte>, cfg: Config, l: Link, i: nat, j: nat): (w: nat)
    requires InvAt(payload, cfg, l, i, j)
  {
    var m := CfCount(payload);
    BlocksMonotone(cfg.blockSize, Min(j, m - 1), m - 1);
    var toEmit := m - i + (if l.s.SFirst? then 1 else 0);
    InFlight(l) + 2 * toEmit + 2 * FlowsLeft(payload, cfg, l.r, j)
  }

  lemma TakingGrantsNothing(payload: seq<byte>, cfg: Config, l: Link, i: nat, j: nat, j': nat)
    requires InvAt(payload, cfg, l, i, j) && ReceiverListens(l.r) && l.data != []
    requires j' == j + if l.r.RCollect? && IsConsecutive(l.data[0]) then 1 else 0
    ensures Fits(payload, l)
    ensures Granted(cfg.blockSize, CfCount(payload), j', After(payload, cfg, l, ReceiverTakes).r)
         == Granted(cfg.blockSize, CfCount(payload), j, l.r)
  {
    if l.r.RIdle? {
      FirstFrameHeard(payload);
    } else if IsConsecutive(l.data[0]) {
      CfHead(payload, l.data, i, j);
      AcceptsNext(payload, cfg, l.r, j);
    }
  }

  lemma EmittingMeasured(payload: seq<byte>, cfg: Config, l: Link)
    requires Fits(payload, l) && Emits(l.s)
    ensures var l' := After(payload, cfg, l, SenderEmits); InFlight(l') == InFlight(l) + 1 && l'.r == l.r
  {
  }

  lemma GrantingMeasured(payload: seq<byte>, cfg: Config, l: Link, j: nat)
    requires |payload| >= 8 && Fits(payload, l) && l.r.RGrant?
    ensures var l' := After(payload, cfg, l, ReceiverGrants);
      InFlight(l') == InFlight(l) + 1 && l'.s == l.s
      && FlowsLeft(payload, cfg, l'.r, j) == FlowsLeft(payload, cfg, l.r, j) - 1
  {
  }

  lemma OtherMeasured(payload: seq<byte>, cfg: Config, l: Link, step: Step)
    requires Fits(payload, l) && Enabled(payload, l, step) && !step.SenderEmits? && !step.ReceiverGrants?
    ensures var l' := After(payload, cfg, l, step);
      InFlight(l') == InFlight(l) - 1 && (!step.ReceiverTakes? ==> l'.r == l.r)
  {
  }

  /** Every step leaves less to do. */
  lemma StepShrinks(payload: seq<byte>, cfg: Config, l: Link, step: Step, i: nat, j: nat, i': nat, j': nat)
    requires InvAt(payload, cfg, l, i, j) && Enabled(payload, l, step) && Fits(payload, l)
    requires InvAt(payload, cfg, After(payload, cfg, l, step), i', j')
    requires i' == i + if step.SenderEmits? && !l.s.SFirst? then 1 else 0
    requires j' == j + if step.ReceiverTakes? && l.r.RCollect? && IsConsecutive(l.data[0]) then 1 else 0
    requires After(payload, cfg, l, step).s.SFirst? ==> l.s.SFirst? && !step.SenderEmits?
    ensures ToDo(payload, cfg, After(payload, cfg, l, step), i', j') < ToDo(payload, cfg, l, i, j)
  {
    match step
    case SenderEmits => EmittingMeasured(payload, cfg, l);
    case ReceiverGrants => GrantingMeasured(payload, cfg, l, j);
    case ReceiverTakes =>
      TakingGrantsNothing(payload, cfg, l, i, j, j');
      OtherMeasured(payload, cfg, l, step);
    case _ => OtherMeasured(payload, cfg, l, step);
  }

  // ---------------------------------------------------------------- whole runs

  /** The state after steps, if each was enabled when its turn came. */
  function Run(payload: seq<byte>, cfg: Config, l: Link, steps: seq<Step>): Option<Link>
    requires Fits(payload, l)
    decreases |steps|
  {
    if steps == [] then Some(l)
    else if !Enabled(payload, l, steps[0]) then None
    else Run(payload, cfg, After(payload, cfg, l, steps[0]), steps[1..])
  }

  /** The First Frame is the first frame to get on the receiver's link. */
  predicate FirstFrameLeads(steps: seq<Step>)
    decreases |steps|
  {
    steps == [] || steps[0].SenderEmits? || (!steps[0].JunkToReceiver? && FirstFrameLeads(steps[1..]))
  }

  lemma {:induction false} RunKeeps(payload: seq<byte>, cfg: Config, l: Link, steps: seq<Step>, i: nat, j: nat)
    returns (i': nat, j': nat)
    requires InvAt(payload, cfg, l, i, j) && Run(payload, cfg, l, steps).Some?
    requires l.s.SFirst? ==> FirstFrameLeads(steps)
    ensures InvAt(payload, cfg, Run(payload, cfg, l, steps).value, i', j')
    ensures |steps| + ToDo(payload, cfg, Run(payload, cfg, l, steps).value, i', j') <= ToDo(payload, cfg, l, i, j)
    decreases |steps|
  {
    if steps == [] {
      i', j' := i, j;
    } else {
      var i1, j1 := StepKeeps(payload, cfg, l, steps[0], i, j);
      StepShrinks(payload, cfg, l, steps[0], i, j, i1, j1);
      i', j' := RunKeeps(payload, cfg, After(payload, cfg, l, steps[0]), steps[1..], i1, j1);
    }
  }

  /** Whether the last consecutive frame also fills a block, which leaves the
      sender waiting for a flow control that never comes. */
  predicate EndsOnBlock(payload: seq<byte>, cfg: Config) {
    cfg.blockSize != 0 && CfCount(payload) % cfg.blockSize == 0
  }

  lemma QuiescentEnds(payload: seq<byte>, cfg: Config, l: Link, i: nat, j: nat)
    requires InvAt(payload, cfg, l, i, j) && Quiescent(payload, l)
    ensures l.r == RDone(Ok(payload))
    ensures if EndsOnBlock(payload, cfg) then l.s.SAwaitBlock? else l.s == SDone(Ok(()))
  {
    var b, m := cfg.blockSize, CfCount(payload);
    if b != 0 {
      IntoBlockIsModulo(b, m);
    }
    if l.s.SAwaitBlock? && i < m {
      assert false;
    }
  }

  /** Where the two block counters meet: a sender waiting at a block boundary is
      granted the next block only once the receiver has taken the whole block. */
  lemma GrantMeetsBlock(payload: seq<byte>, cfg: Config, l: Link, i: nat, j: nat)
    requires InvAt(payload, cfg, l, i, j) && l.s.SAwaitBlock? && Keep(l.fcs, IsFlowControl) != []
    ensures i == j && l.r.RCollect? && l.r.cfInBlock == 0
    ensures var s' := OnGrant(payload, l.s, Grant(CONTINUE_TO_SEND, cfg.blockSize));
      s'.SEmit? && s'.blockCount == l.r.cfInBlock
  {
    var b, m := cfg.blockSize, CfCount(payload);
    NoGrantAfterLast(payload, cfg, l, i, j);
    BlocksMonotone(b, j, i);
    CarriedLast(payload, i);
    if j < i {
      BlocksMonotone(b, j, i - 1);
      NextInBlock(b, i - 1);
      assert false;
    }
  }

  /** Every interleaving in which the First Frame gets to the receiver first, for every
      payload that needs one, every BlockSize and any amount of unrelated traffic after
      it: runs are finite, recv returns nothing but the payload, a run that can go no
      further has returned it, and send has then succeeded exactly when the last frame
      does not end a block; otherwise it waits and times out. */
  lemma EveryRunDelivers(payload: seq<byte>, cfg: Config, junk: nat, steps: seq<Step>)
    requires 8 <= |payload| <= MAX_PAYLOAD
    requires Run(payload, cfg, Start(payload, junk), steps).Some? && FirstFrameLeads(steps)
    ensures var m, l := CfCount(payload), Run(payload, cfg, Start(payload, junk), steps).value;
      && Fits(payload, l)
      && |steps| <= 2 * junk + 2 * (m + 1) + 2 * (1 + Blocks(cfg.blockSize, m - 1))
      && (l.r.RDone? ==> l.r == RDone(Ok(payload)))
      && (l.s.SDone? ==> l.s == SDone(Ok(())) && !EndsOnBlock(payload, cfg))
      && (Quiescent(payload, l) ==>
            && l.r == RDone(Ok(payload))
            && (if EndsOnBlock(payload, cfg)
                then Listens(l.s) && SenderHears(payload, l.s, TimedOut) == SDone(Err(TimedOutError))
                else l.s == SDone(Ok(()))))
  {
    StartInv(payload, cfg, junk);
    var i, j := RunKeeps(payload, cfg, Start(payload, junk), steps, 0, 0);
    var l := Run(payload, cfg, Start(payload, junk), steps).value;
    if cfg.blockSize != 0 {
      IntoBlockIsModulo(cfg.blockSize, CfCount(payload));
    }
    if Quiescent(payload, l) {
      QuiescentEnds(payload, cfg, l, i, j);
    }
  }

  /** A payload of at most 7 bytes crosses in one frame. */
  lemma SingleFrameCrosses(payload: seq<byte>, cfg: Config, credit: nat)
    requires 1 <= |payload| <= 7 && credit > 0
    ensures RunSender(payload, SenderStart(payload), [], credit) ==
      Call(Ok(()), [SingleFrame(payload)], [], credit - 1)
    ensures RunReceiver(cfg, RIdle, [Arrived(SingleFrame(payload))], 0) == Call(Ok(payload), [], [], 0)
  {
    var d := SingleFrame(payload);
    assert d[1..1 + d[0] % 16] == payload;
    assert [Arrived(d)][1..] == [];
    assert FirstHeard(d) == RDone(Ok(payload));
  }
}
