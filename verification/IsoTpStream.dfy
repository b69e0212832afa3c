/** recv against whatever the bus brings: exactly when a segmented message is
    accepted, what it then is, and why lost frames never yield a wrong one. */
module IsoTpStream {
  import opened Bytes
  import opened IsoTp
  import opened IsoTpLink

  function Max(a: int, b: int): int { if a < b then b else a }

  /** The frames heard before the first timeout or the end of the channel. */
  function Frames(rx: seq<Event>): seq<pdu> {
    if rx == [] || !rx[0].Arrived? then [] else [rx[0].data] + Frames(rx[1..])
  }

  /** The consecutive frames among them. */
  function Heard(rx: seq<Event>): seq<pdu> { Keep(Frames(rx), IsConsecutive) }

  /** The data carried by consecutive frames, in order. */
  function Bodies(cs: seq<pdu>): seq<byte> {
    if cs == [] then [] else (if cs[0] == [] then [] else cs[0][1..]) + Bodies(cs[1..])
  }

  lemma {:induction false} BodiesConcat(a: seq<pdu>, b: seq<pdu>)
    ensures Bodies(a + b) == Bodies(a) + Bodies(b)
  {
    if a == [] {
      assert a + b == b;
    } else {
      assert (a + b)[1..] == a[1..] + b;
      BodiesConcat(a[1..], b);
    }
  }

  /** A frame that may come k-th: the right sequence number and some data. */
  predicate MayComeAs(d: pdu, k: nat) { |d| >= 2 && d[0] % 16 == k % 16 }

  /** How many of the frames cs complete a message of the given length, have bytes
      of which are there after k frames; None if they never do. */
  function Completion(length: nat, have: nat, k: nat, cs: seq<pdu>): Option<nat>
    decreases |cs|
  {
    if have >= length then Some(0)
    else if cs == [] || !MayComeAs(cs[0], k + 1) then None
    else match Completion(length, have + |cs[0]| - 1, k + 1, cs[1..])
      case None => None
      case Some(m) => Some(m + 1)
  }

  /** The same, said of the frames directly: the first m are numbered k + 1, k + 2,
      ... modulo 16, none is empty, and the m-th is the first to reach the length. */
  ghost predicate CompletedBy(length: nat, have: nat, k: nat, cs: seq<pdu>, m: nat) {
    && m <= |cs|
    && (forall i :: 0 <= i < m ==> MayComeAs(cs[i], k + 1 + i))
    && have + |Bodies(cs[..m])| >= length
    && (m > 0 ==> have + |Bodies(cs[..m - 1])| < length)
  }

  lemma {:induction false} CompletionMeaning(length: nat, have: nat, k: nat, cs: seq<pdu>, m: nat)
    ensures Completion(length, have, k, cs) == Some(m) <==> CompletedBy(length, have, k, cs, m)
    decreases |cs|
  {
    if have < length && cs != [] && MayComeAs(cs[0], k + 1) && 0 < m <= |cs| {
      var rest, have' := cs[1..], have + |cs[0]| - 1;
      CompletionMeaning(length, have', k + 1, rest, m - 1);
      assert cs[..m][1..] == rest[..m - 1];
      if m > 1 {
        assert cs[..m - 1][1..] == rest[..m - 2];
      }
      assert forall i :: 0 <= i < m - 1 ==> rest[i] == cs[i + 1];
      if CompletedBy(length, have, k, cs, m) {
        forall i | 0 <= i < m - 1 ensures MayComeAs(rest[i], k + 2 + i) {
          assert MayComeAs(cs[i + 1], k + 1 + (i + 1));
        }
        assert CompletedBy(length, have', k + 1, rest, m - 1);
      }
      if CompletedBy(length, have', k + 1, rest, m - 1) {
        forall i | 0 <= i < m ensures MayComeAs(cs[i], k + 1 + i) {
          if i > 0 {
            assert MayComeAs(rest[i - 1], k + 2 + (i - 1));
          }
        }
      }
    } else {
      CompletionEdges(length, have, k, cs, m);
    }
  }

  lemma CompletionEdges(length: nat, have: nat, k: nat, cs: seq<pdu>, m: nat)
    requires !(have < length && cs != [] && MayComeAs(cs[0], k + 1) && 0 < m <= |cs|)
    ensures Completion(length, have, k, cs) == Some(m) <==> CompletedBy(length, have, k, cs, m)
  {
    CompletionBound(length, have, k, cs);
  }

  lemma {:induction false} CompletionBound(length: nat, have: nat, k: nat, cs: seq<pdu>)
    ensures var o := Completion(length, have, k, cs);
      o.Some? ==> o.value <= |cs| && (o.value == 0 <==> have >= length)
    decreases |cs|
  {
    if have < length && cs != [] && MayComeAs(cs[0], k + 1) {
      CompletionBound(length, have + |cs[0]| - 1, k + 1, cs[1..]);
    }
  }

  // ---------------------------------------------------------------- the receiver's verdict

  /** Clear-to-sends due after k frames while m more come in: one per block filled
      before the message is complete. */
  function GrantsDue(b: nat, k: nat, m: nat): int {
    if m == 0 then 0 else Blocks(b, k + m - 1) - Blocks(b, k)
  }

  function Verdict(length: nat, buf: seq<byte>, cs: seq<pdu>, m: nat): seq<byte>
    requires m <= |cs|
  {
    (buf + Bodies(cs[..m]))[..Min(Max(length, |buf|), |buf + Bodies(cs[..m])|)]
  }

  /** What the receiver, k frames into a message, makes of all that follows. */
  ghost predicate Decides(cfg: Config, length: nat, buf: seq<byte>, k: nat, rx: seq<Event>, credit: nat,
      outcome: Result<seq<byte>, Error>) {
    var cs := Heard(rx);
    var o := Completion(length, |buf|, k, cs);
    && (outcome.Ok? <==> o.Some? && GrantsDue(cfg.blockSize, k, o.value) <= credit)
    && (outcome.Ok? ==> o.value <= |cs| && outcome.value == Verdict(length, buf, cs, o.value))
  }

  lemma VerdictStep(length: nat, buf: seq<byte>, cs: seq<pdu>, m: nat)
    requires 0 < m <= |cs| && |cs[0]| >= 2 && |buf| < length
    ensures var buf' := buf + cs[0][1..1 + Min(|cs[0]| - 1, length - |buf|)];
      (|buf'| < length || m == 1) && |buf'| <= length ==>
      Verdict(length, buf, cs, m) == Verdict(length, buf', cs[1..], m - 1)
  {
    var d := cs[0];
    var chunk := d[1..1 + Min(|d| - 1, length - |buf|)];
    var rest := Bodies(cs[1..][..m - 1]);
    assert cs[..m][1..] == cs[1..][..m - 1];
    assert Bodies(cs[..m]) == d[1..] + rest;
    if |buf + chunk| < length {
      assert chunk == d[1..];
      assert buf + (d[1..] + rest) == (buf + chunk) + rest;
    } else if m == 1 {
      assert rest == [];
      assert d[1..] + rest == d[1..];
      assert (buf + d[1..])[..length] == buf + chunk;
      assert buf + chunk + [] == buf + chunk;
    }
  }

  lemma GrantsDueStep(b: nat, k: nat, m: nat)
    requires m >= 1
    ensures GrantsDue(b, k + 1, m) >= 0
    ensures GrantsDue(b, k, m + 1) == GrantsDue(b, k + 1, m) + Blocks(b, k + 1) - Blocks(b, k)
  {
    BlocksMonotone(b, k + 1, k + m);
  }

  /** The receiver k frames into a message, as its loop finds it. */
  ghost function Collecting(cfg: Config, length: nat, buf: seq<byte>, k: nat): (r: Receiver)
    ensures ReceiverFits(r)
  {
    RTurn(length, buf, (k + 1) % 256, IntoBlock(cfg.blockSize, k))
  }

  lemma VerdictAtOnce(length: nat, buf: seq<byte>, cs: seq<pdu>)
    requires |buf| >= length
    ensures Verdict(length, buf, cs, 0) == buf
  {
    assert cs[..0] == [] && buf + [] == buf;
  }

  lemma HeardUnfolds(rx: seq<Event>)
    requires rx != [] && rx[0].Arrived?
    ensures Heard(rx) == (if IsConsecutive(rx[0].data) then [rx[0].data] else []) + Heard(rx[1..])
  {
    assert Frames(rx) == [rx[0].data] + Frames(rx[1..]) && Frames(rx)[1..] == Frames(rx[1..]);
  }

  /** A frame of another kind is passed over. */
  lemma OtherDecides(cfg: Config, length: nat, buf: seq<byte>, k: nat, rx: seq<Event>, credit: nat)
    requires |buf| < length && rx != [] && rx[0].Arrived? && !IsConsecutive(rx[0].data)
    ensures Heard(rx) == Heard(rx[1..])
    ensures RunReceiver(cfg, Collecting(cfg, length, buf, k), rx, credit)
         == RunReceiver(cfg, Collecting(cfg, length, buf, k), rx[1..], credit)
  {
    HeardUnfolds(rx);
  }

  /** A consecutive frame out of turn ends the call. */
  lemma WrongDecides(cfg: Config, length: nat, buf: seq<byte>, k: nat, rx: seq<Event>, credit: nat)
    requires |buf| < length && rx != [] && rx[0].Arrived? && IsConsecutive(rx[0].data) && !MayComeAs(rx[0].data, k + 1)
    ensures Decides(cfg, length, buf, k, rx, credit,
      RunReceiver(cfg, Collecting(cfg, length, buf, k), rx, credit).outcome)
  {
    HeardUnfolds(rx);
    NextSn(k);
  }

  lemma {:induction false} ReceiverDecides(cfg: Config, length: nat, buf: seq<byte>, k: nat, rx: seq<Event>,
      credit: nat)
    ensures Decides(cfg, length, buf, k, rx, credit,
      RunReceiver(cfg, Collecting(cfg, length, buf, k), rx, credit).outcome)
    decreases |rx|
  {
    if |buf| >= length {
      VerdictAtOnce(length, buf, Heard(rx));
    } else if rx != [] && rx[0].Arrived? {
      if !IsConsecutive(rx[0].data) {
        OtherDecides(cfg, length, buf, k, rx, credit);
        ReceiverDecides(cfg, length, buf, k, rx[1..], credit);
      } else if MayComeAs(rx[0].data, k + 1) {
        HeardUnfolds(rx);
        ConsecutiveDecides(cfg, length, buf, k, rx, credit);
      } else {
        WrongDecides(cfg, length, buf, k, rx, credit);
      }
    }
  }

  /** A frame that fills a block short of the message's end. */
  predicate FillsBlock(b: nat, length: nat, have: nat, k: nat) {
    b != 0 && have < length && IntoBlock(b, k) + 1 == b
  }

  function Grown(length: nat, buf: seq<byte>, d: pdu): seq<byte>
    requires |buf| < length && |d| >= 1
  {
    buf + d[1..1 + Min(|d| - 1, length - |buf|)]
  }

  lemma ConsecutiveMoves(cfg: Config, length: nat, buf: seq<byte>, k: nat, d: pdu)
    requires |buf| < length && IsConsecutive(d) && MayComeAs(d, k + 1)
    ensures var buf' := Grown(length, buf, d);
      OnConsecutive(cfg, Collecting(cfg, length, buf, k), d) ==
        if FillsBlock(cfg.blockSize, length, |buf'|, k) then RGrant(length, buf', (k + 2) % 256, 0)
        else Collecting(cfg, length, buf', k + 1)
    ensures IntoBlock(cfg.blockSize, k) + 1 == cfg.blockSize ==> IntoBlock(cfg.blockSize, k + 1) == 0
  {
    NextInBlock(cfg.blockSize, k);
    NextSn(k);
    var r := Collecting(cfg, length, buf, k);
    assert r == RCollect(length, buf, (k + 1) % 256, IntoBlock(cfg.blockSize, k));
    CollectStep(cfg, r, d, Grown(length, buf, d));
  }

  /** What an acceptable frame does to the rest of the call. */
  lemma ConsecutiveRuns(cfg: Config, length: nat, buf: seq<byte>, k: nat, rx: seq<Event>, credit: nat)
    requires |buf| < length && rx != [] && rx[0].Arrived? && IsConsecutive(rx[0].data) && MayComeAs(rx[0].data, k + 1)
    ensures var buf' := Grown(length, buf, rx[0].data);
      var next := Collecting(cfg, length, buf', k + 1);
      RunReceiver(cfg, Collecting(cfg, length, buf, k), rx, credit).outcome ==
        if !FillsBlock(cfg.blockSize, length, |buf'|, k) then RunReceiver(cfg, next, rx[1..], credit).outcome
        else if credit == 0 then Err(BusError)
        else RunReceiver(cfg, next, rx[1..], credit - 1).outcome
  {
    ConsecutiveMoves(cfg, length, buf, k, rx[0].data);
  }

  /** The inductive step of ReceiverDecides at an acceptable frame. */
  lemma {:induction false} ConsecutiveDecides(cfg: Config, length: nat, buf: seq<byte>, k: nat, rx: seq<Event>,
      credit: nat)
    requires |buf| < length && rx != [] && rx[0].Arrived? && IsConsecutive(rx[0].data) && MayComeAs(rx[0].data, k + 1)
    requires Heard(rx) == [rx[0].data] + Heard(rx[1..]) && Heard(rx)[1..] == Heard(rx[1..])
    ensures Decides(cfg, length, buf, k, rx, credit,
      RunReceiver(cfg, Collecting(cfg, length, buf, k), rx, credit).outcome)
    decreases |rx|, 0
  {
    var d, rest, b := rx[0].data, rx[1..], cfg.blockSize;
    var buf' := Grown(length, buf, d);
    var fills := FillsBlock(b, length, |buf'|, k);
    ConsecutiveRuns(cfg, length, buf, k, rx, credit);
    if !(fills && credit == 0) {
      ReceiverDecides(cfg, length, buf', k + 1, rest, if fills then credit - 1 else credit);
    }
    DecidesStep(cfg, length, buf, k, d, Heard(rest));
  }

  /** Completion, clear-to-sends and the reassembled bytes, one frame later. */
  lemma DecidesStep(cfg: Config, length: nat, buf: seq<byte>, k: nat, d: pdu, rest: seq<pdu>)
    requires |buf| < length && IsConsecutive(d) && MayComeAs(d, k + 1)
    ensures var b, buf' := cfg.blockSize, Grown(length, buf, d);
      var o, o' := Completion(length, |buf|, k, [d] + rest), Completion(length, |buf'|, k + 1, rest);
      && (o.Some? <==> o'.Some?)
      && (o.Some? ==>
            && o.value == o'.value + 1 && o.value <= |[d] + rest|
            && GrantsDue(b, k, o.value) == GrantsDue(b, k + 1, o'.value) +
              (if FillsBlock(b, length, |buf'|, k) then 1 else 0)
            && GrantsDue(b, k + 1, o'.value) >= 0
            && Verdict(length, buf, [d] + rest, o.value) == Verdict(length, buf', rest, o'.value))
  {
    var b, buf' := cfg.blockSize, Grown(length, buf, d);
    assert ([d] + rest)[1..] == rest;
    CompletionOfMore(length, |buf'|, |buf| + |d| - 1, k + 1, rest);
    CompletionBound(length, |buf'|, k + 1, rest);
    NextInBlock(b, k);
    var o' := Completion(length, |buf'|, k + 1, rest);
    if o'.Some? {
      VerdictStep(length, buf, [d] + rest, o'.value + 1);
      if o'.value >= 1 {
        GrantsDueStep(b, k, o'.value);
      }
    }
  }

  lemma CompletionOfMore(length: nat, have: nat, more: nat, k: nat, cs: seq<pdu>)
    requires have == Min(more, length)
    ensures Completion(length, have, k, cs) == Completion(length, more, k, cs)
  {
  }

  // ---------------------------------------------------------------- what recv promises

  /** recv after a First Frame ff, against anything the bus may bring: it succeeds
      if and only if some number m of consecutive frames, among all that is heard
      before silence, complete the message, and the bus takes the clear-to-sends due;
      the message is then the First Frame's data followed by theirs, cut at the
      declared length (or the First Frame's own data if that is longer already). */
  lemma RecvExactly(cfg: Config, ff: pdu, rx: seq<Event>, credit: nat)
    requires |ff| >= 2 && ff[0] / 16 == 1
    ensures var c, have, length := RunReceiver(cfg, RIdle, [Arrived(ff)] + rx, credit), ff[2..], DeclaredLength(ff);
      && (c.outcome.Ok? <==> exists m: nat ::
            && CompletedBy(length, |have|, 0, Heard(rx), m)
            && 1 + GrantsDue(cfg.blockSize, 0, m) <= credit)
      && (forall m: nat :: c.outcome.Ok? && CompletedBy(length, |have|, 0, Heard(rx), m) ==>
            && |c.outcome.value| == Max(length, |have|)
            && c.outcome.value == (have + Bodies(Heard(rx)[..m]))[..Max(length, |have|)])
  {
    var have, length := ff[2..], DeclaredLength(ff);
    var c := RunReceiver(cfg, RIdle, [Arrived(ff)] + rx, credit);
    assert ([Arrived(ff)] + rx)[1..] == rx;
    assert c == RunReceiver(cfg, RGrant(length, have, 1, 0), rx, credit);
    if credit > 0 {
      assert AfterGrant(RGrant(length, have, 1, 0)) == Collecting(cfg, length, have, 0);
      ReceiverDecides(cfg, length, have, 0, rx, credit - 1);
    }
    var o := Completion(length, |have|, 0, Heard(rx));
    forall m: nat
      ensures o == Some(m) <==> CompletedBy(length, |have|, 0, Heard(rx), m)
      ensures GrantsDue(cfg.blockSize, 0, m) >= 0
    {
      CompletionMeaning(length, |have|, 0, Heard(rx), m);
      if m > 0 {
        BlocksMonotone(cfg.blockSize, 0, m - 1);
      }
    }
  }

  /** Frames that are not consecutive frames may come in between at will. */
  lemma {:induction false} JunkChangesNothing(cfg: Config, r: Receiver, before: seq<Event>, junk: pdu,
      after: seq<Event>, credit: nat)
    requires ReceiverFits(r) && !r.RIdle? && !IsConsecutive(junk)
    ensures var with, without := RunReceiver(cfg, r, before + [Arrived(junk)] + after, credit),
      RunReceiver(cfg, r, before + after, credit);
      with.outcome == without.outcome && with.sent == without.sent && with.credit == without.credit
    decreases |before|, r.RGrant?
  {
    var full, cut := before + [Arrived(junk)] + after, before + after;
    if r.RGrant? {
      if credit > 0 {
        JunkChangesNothing(cfg, AfterGrant(r), before, junk, after, credit - 1);
      }
    } else if r.RCollect? {
      if before == [] {
        assert full[1..] == after && cut == after;
      } else {
        assert full[0] == cut[0] == before[0];
        assert full[1..] == before[1..] + [Arrived(junk)] + after && cut[1..] == before[1..] + after;
        JunkChangesNothing(cfg, ReceiverHears(cfg, r, before[0]), before[1..], junk, after, credit);
      }
    }
  }

  // ---------------------------------------------------------------- lost frames

  /** The consecutive frames 1 to t of a transfer without the lost ones. */
  ghost function Survivors(payload: seq<byte>, t: nat, lost: set<nat>): seq<pdu>
    requires t <= CfCount(payload)
  {
    if t == 0 then []
    else Survivors(payload, t - 1, lost) + (if t in lost then [] else [Cf(payload, t)])
  }

  lemma {:induction false} SurvivorBytes(payload: seq<byte>, t: nat, lost: set<nat>)
    requires |payload| >= 8 && t <= CfCount(payload)
    ensures 6 + |Bodies(Survivors(payload, t, lost))| <= Carried(payload, t)
    ensures (exists k :: 1 <= k <= t && k in lost) ==> 6 + |Bodies(Survivors(payload, t, lost))| < Carried(payload, t)
  {
    if t > 0 {
      SurvivorBytes(payload, t - 1, lost);
      BodiesConcat(Survivors(payload, t - 1, lost), [Cf(payload, t)]);
      CfFields(payload, t);
      assert Bodies([Cf(payload, t)]) == Cf(payload, t)[1..];
      assert Survivors(payload, t - 1, lost) + [] == Survivors(payload, t - 1, lost);
      if exists k :: 1 <= k <= t && k in lost && t !in lost {
        var k :| 1 <= k <= t && k in lost;
        assert 1 <= k <= t - 1;
      }
    }
  }

  lemma {:induction false} SurvivorsOfNone(payload: seq<byte>, t: nat, lost: set<nat>)
    requires t <= CfCount(payload) && forall k :: 1 <= k <= t ==> k !in lost
    ensures Survivors(payload, t, lost) == Cfs(payload, 0, t)
  {
    if t > 0 {
      SurvivorsOfNone(payload, t - 1, lost);
      CfsSnoc(payload, 0, t - 1);
    }
  }

  lemma BodiesSnoc(head: seq<byte>, cs: seq<pdu>, d: pdu)
    requires |d| >= 1
    ensures head + Bodies(cs + [d]) == (head + Bodies(cs)) + d[1..]
  {
    BodiesConcat(cs, [d]);
    assert Bodies([d]) == d[1..] + [] == d[1..];
  }

  /** The first t consecutive frames carry the payload on from its sixth byte. */
  lemma {:induction false} CfsBytes(payload: seq<byte>, t: nat)
    requires |payload| >= 8 && t <= CfCount(payload)
    ensures payload[..6] + Bodies(Cfs(payload, 0, t)) == payload[..Carried(payload, t)]
  {
    if t > 0 {
      CfsBytes(payload, t - 1);
      CfsSnoc(payload, 0, t - 1);
      CfFields(payload, t);
      BodiesSnoc(payload[..6], Cfs(payload, 0, t - 1), Cf(payload, t));
    }
  }

  lemma {:induction false} CfsAt(payload: seq<byte>, t: nat, k: nat)
    requires |payload| >= 8 && k < t <= CfCount(payload)
    ensures Cfs(payload, 0, t)[k] == Cf(payload, k + 1)
    decreases t
  {
    CfsSnoc(payload, 0, t - 1);
    if k < t - 1 {
      CfsAt(payload, t - 1, k);
    }
  }

  lemma {:induction false} BodiesPrefix(cs: seq<pdu>, m: nat)
    requires m <= |cs|
    ensures |Bodies(cs[..m])| <= |Bodies(cs)|
  {
    assert cs == cs[..m] + cs[m..];
    BodiesConcat(cs[..m], cs[m..]);
  }

  lemma LossFails(payload: seq<byte>, lost: set<nat>, m: nat)
    requires 8 <= |payload| && exists k :: 1 <= k <= CfCount(payload) && k in lost
    ensures !CompletedBy(|payload|, 6, 0, Survivors(payload, CfCount(payload), lost), m)
  {
    var cs := Survivors(payload, CfCount(payload), lost);
    SurvivorBytes(payload, CfCount(payload), lost);
    CarriedLast(payload, CfCount(payload));
    if m <= |cs| {
      BodiesPrefix(cs, m);
    }
  }

  lemma FirstFrameParts(payload: seq<byte>)
    requires 8 <= |payload| <= MAX_PAYLOAD
    ensures var ff := FirstFrame(payload);
      |ff| >= 2 && ff[0] / 16 == 1 && ff[2..] == payload[..6] && DeclaredLength(ff) == |payload|
  {
    assert FirstFrame(payload)[2..] == payload[..6];
  }

  /** Losing any of a transfer's consecutive frames, in any pattern, even sixteen in a
      row so that the sequence numbers fall into place again, makes recv fail; losing
      none makes it return the payload. Frames of other kinds may be heard besides. */
  lemma LossNeverDelivers(payload: seq<byte>, cfg: Config, lost: set<nat>, rx: seq<Event>, credit: nat)
    requires 8 <= |payload| <= MAX_PAYLOAD
    requires Heard(rx) == Survivors(payload, CfCount(payload), lost)
    ensures var c := RunReceiver(cfg, RIdle, [Arrived(FirstFrame(payload))] + rx, credit);
      && (c.outcome.Ok? ==> c.outcome.value == payload)
      && (c.outcome.Ok? <==>
            && (forall k :: 1 <= k <= CfCount(payload) ==> k !in lost)
            && 1 + Blocks(cfg.blockSize, CfCount(payload) - 1) <= credit)
  {
    var m, n, cs := CfCount(payload), |payload|, Heard(rx);
    FirstFrameParts(payload);
    RecvExactly(cfg, FirstFrame(payload), rx, credit);
    if exists k :: 1 <= k <= m && k in lost {
      forall t: nat ensures !CompletedBy(n, 6, 0, cs, t) {
        LossFails(payload, lost, t);
      }
    } else {
      SurvivorsOfNone(payload, m, lost);
      CompleteTransfer(payload, cs);
      forall t: nat ensures CompletedBy(n, 6, 0, cs, t) <==> t == m {
        CompletionMeaning(n, 6, 0, cs, m);
        CompletionMeaning(n, 6, 0, cs, t);
      }
      assert GrantsDue(cfg.blockSize, 0, m) == Blocks(cfg.blockSize, m - 1);
    }
  }

  lemma CfsLength(payload: seq<byte>, t: nat)
    requires |payload| >= 8 && t <= CfCount(payload)
    ensures 6 + |Bodies(Cfs(payload, 0, t))| == Carried(payload, t)
  {
    CfsBytes(payload, t);
    assert |payload[..6] + Bodies(Cfs(payload, 0, t))| == |payload[..Carried(payload, t)]|;
  }

  lemma SnocSlices<T>(front: seq<T>, last: T)
    ensures (front + [last])[..|front|] == front
    ensures (front + [last])[..|front| + 1] == front + [last]
  {
  }

  lemma CfsNumbered(payload: seq<byte>, t: nat)
    requires |payload| >= 8 && t <= CfCount(payload)
    ensures forall i :: 0 <= i < t ==> MayComeAs(Cfs(payload, 0, t)[i], 0 + 1 + i)
  {
    forall i | 0 <= i < t ensures MayComeAs(Cfs(payload, 0, t)[i], 0 + 1 + i) {
      CfsAt(payload, t, i);
      CfFields(payload, i + 1);
    }
  }

  lemma CfsWhole(payload: seq<byte>)
    requires |payload| >= 8
    ensures payload[..6] + Bodies(Cfs(payload, 0, CfCount(payload))) == payload
  {
    CfsBytes(payload, CfCount(payload));
    CarriedLast(payload, CfCount(payload));
    assert payload[..|payload|] == payload;
  }

  /** All frames but the last fall short of the payload; all of them reach it. */
  lemma LastFrameReaches(payload: seq<byte>, cs: seq<pdu>)
    requires 8 <= |payload| && cs == Cfs(payload, 0, CfCount(payload))
    ensures var m := CfCount(payload);
      && m >= 1 && |cs| == m && cs[..m] == cs
      && 6 + |Bodies(cs[..m - 1])| < |payload| && 6 + |Bodies(cs)| >= |payload|
  {
    var m := CfCount(payload);
    CfsSnoc(payload, 0, m - 1);
    SnocSlices(Cfs(payload, 0, m - 1), Cf(payload, m));
    CfsLength(payload, m - 1);
    CfsLength(payload, m);
    CarriedLast(payload, m);
    CarriedLast(payload, m - 1);
  }

  lemma CompleteTransfer(payload: seq<byte>, cs: seq<pdu>)
    requires 8 <= |payload| && cs == Cfs(payload, 0, CfCount(payload))
    ensures CompletedBy(|payload|, 6, 0, cs, CfCount(payload))
    ensures (payload[..6] + Bodies(cs[..CfCount(payload)]))[..|payload|] == payload
  {
    LastFrameReaches(payload, cs);
    CfsNumbered(payload, CfCount(payload));
    CfsWhole(payload);
  }
}
