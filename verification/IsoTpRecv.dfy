/** Exactly what recv does with whatever the bus brings, told from the octets heard. */
module IsoTpRecv {
  import opened Bytes
  import opened IsoTp
  import opened IsoTpLink
  import opened IsoTpSend

  /** A consecutive frame by its octets. */
  predicate IsNext(d: pdu) { |d| >= 1 && d[0] / 16 == 2 }

  /** The consecutive frames heard before the first timeout or the end of the channel. */
  function Nexts(rx: seq<Event>): seq<pdu> {
    if rx == [] || !rx[0].Arrived? then []
    else (if IsNext(rx[0].data) then [rx[0].data] else []) + Nexts(rx[1..])
  }

  datatype End = Whole(message: seq<byte>) | Bad | Starved

  /** How the reassembly ends and how many flow controls it calls for on the way. */
  datatype Taking = Taking(end: End, grants: nat)

  /** From have octets of the message, k frames taken: a frame must carry data and the number
      k + 1 modulo 16; a full block asks for a flow control unless the message is whole. */
  function Taken(length: nat, blockSize: nat, have: seq<byte>, k: nat, frames: seq<pdu>): Taking
    decreases |frames|
  {
    if |have| >= length then Taking(Whole(have), 0)
    else if frames == [] then Taking(Starved, 0)
    else
      var d := frames[0];
      if |d| < 2 || d[0] % 16 != (k + 1) % 16 then Taking(Bad, 0)
      else
        var more := have + d[1..Min(|d|, 1 + length - |have|)];
        var t := Taken(length, blockSize, more, k + 1, frames[1..]);
        if |more| < length && blockSize > 0 && (k + 1) % blockSize == 0 then t.(grants := t.grants + 1) else t
  }

  /** The call goes as the taking says, as far as the bus takes the flow controls. */
  predicate FollowsTaking(c: Call<seq<byte>>, t: Taking, ending: Error, credit: nat) {
    if credit < t.grants then c.outcome == Err(BusError) && |c.sent| == credit
    else
      && |c.sent| == t.grants
      && c.outcome == match t.end
           case Whole(message) => Ok(message)
           case Bad => Err(BadMessage)
           case Starved => Err(ending)
  }

  /** Every flow control it sends says go on, with the configured block size and pause. */
  predicate SendsGrants(c: Call<seq<byte>>, cfg: Config, credit: nat) {
    && (forall j :: 0 <= j < |c.sent| ==> c.sent[j] == [48, cfg.blockSize, cfg.stMin])
    && c.credit + |c.sent| == credit
  }

  lemma NextsStep(rx: seq<Event>)
    requires rx != [] && rx[0].Arrived?
    ensures Nexts(rx) == if IsNext(rx[0].data) then [rx[0].data] + Nexts(rx[1..]) else Nexts(rx[1..])
    ensures Ending(rx) == Ending(rx[1..])
  {
  }

  lemma GrantFollows(cfg: Config, c: Call<seq<byte>>, t: Taking, ending: Error, credit: nat)
    requires FollowsTaking(c, t, ending, credit) && SendsGrants(c, cfg, credit)
    ensures var c', t' := Prepend([FlowControl(cfg)], c), t.(grants := t.grants + 1);
      FollowsTaking(c', t', ending, credit + 1) && SendsGrants(c', cfg, credit + 1)
  {
  }

  function Collecting(cfg: Config, length: nat, have: seq<byte>, k: nat): Receiver {
    RCollect(length, have, (k + 1) % 256, IntoBlock(cfg.blockSize, k))
  }

  lemma BlockFills(b: nat, k: nat)
    ensures b > 0 ==> (IntoBlock(b, k) + 1 == b <==> (k + 1) % b == 0)
    ensures IntoBlock(b, k + 1) == if b == 0 || IntoBlock(b, k) + 1 == b then 0 else IntoBlock(b, k) + 1
  {
    NextInBlock(b, k);
    if b > 0 {
      IntoBlockIsModulo(b, k + 1);
    }
  }

  /** The octets a frame brings. */
  lemma SamePart(d: pdu, room: nat)
    requires |d| >= 2
    ensures d[1..1 + Min(|d| - 1, room)] == d[1..Min(|d|, 1 + room)]
  {
  }

  /** A frame in its place. */
  lemma GoodNext(cfg: Config, length: nat, have: seq<byte>, k: nat, d: pdu)
    requires |have| < length && IsNext(d) && |d| >= 2 && d[0] % 16 == (k + 1) % 16
    ensures var more := have + d[1..Min(|d|, 1 + length - |have|)];
      OnConsecutive(cfg, Collecting(cfg, length, have, k), d) ==
        if |more| >= length then RDone(Ok(more))
        else if cfg.blockSize > 0 && (k + 1) % cfg.blockSize == 0 then RGrant(length, more, (k + 2) % 256, 0)
        else Collecting(cfg, length, more, k + 1)
  {
    NextSn(k);
    BlockFills(cfg.blockSize, k);
    SamePart(d, length - |have|);
  }

  lemma BadNext(cfg: Config, length: nat, have: seq<byte>, k: nat, d: pdu)
    requires |have| < length && IsNext(d) && (|d| < 2 || d[0] % 16 != (k + 1) % 16)
    ensures OnConsecutive(cfg, Collecting(cfg, length, have, k), d) == RDone(Err(BadMessage))
  {
    NextSn(k);
  }

  lemma Resumes(cfg: Config, length: nat, more: seq<byte>, k: nat)
    requires |more| < length && cfg.blockSize > 0 && (k + 1) % cfg.blockSize == 0
    ensures AfterGrant(RGrant(length, more, (k + 2) % 256, 0)) == Collecting(cfg, length, more, k + 1)
  {
    BlockFills(cfg.blockSize, k);
  }

  lemma WaitEnds(cfg: Config, r: Receiver, rx: seq<Event>, credit: nat)
    requires ReceiverFits(r) && ReceiverListens(r) && (rx == [] || !rx[0].Arrived?)
    ensures var c := RunReceiver(cfg, r, rx, credit);
      c.outcome == Err(Ending(rx)) && c.sent == [] && c.credit == credit
  {
    if rx != [] {
      assert ReceiverHears(cfg, r, rx[0]) == RDone(Err(Ending(rx)));
      assert RunReceiver(cfg, RDone(Err(Ending(rx))), rx[1..], credit)
        == Call(Err(Ending(rx)), [], rx[1..], credit);
    }
  }

  lemma TakenStep(length: nat, blockSize: nat, have: seq<byte>, k: nat, d: pdu, rest: seq<pdu>)
    requires |have| < length
    ensures Taken(length, blockSize, have, k, [d] + rest) ==
      if |d| < 2 || d[0] % 16 != (k + 1) % 16 then Taking(Bad, 0)
      else
        var more := have + d[1..Min(|d|, 1 + length - |have|)];
        var t := Taken(length, blockSize, more, k + 1, rest);
        if |more| < length && blockSize > 0 && (k + 1) % blockSize == 0 then t.(grants := t.grants + 1) else t
  {
    assert ([d] + rest)[1..] == rest;
  }

  ghost predicate Follows(
    c: Call<seq<byte>>, cfg: Config, length: nat, have: seq<byte>, k: nat, rx: seq<Event>, credit: nat)
  {
    && FollowsTaking(c, Taken(length, cfg.blockSize, have, k, Nexts(rx)), Ending(rx), credit)
    && SendsGrants(c, cfg, credit)
  }

  lemma {:induction false} CallFollows(cfg: Config, length: nat, have: seq<byte>, k: nat, rx: seq<Event>, credit: nat)
    requires |have| < length
    ensures Follows(RunReceiver(cfg, Collecting(cfg, length, have, k), rx, credit), cfg, length, have, k, rx, credit)
    decreases |rx|, 2
  {
    if rx == [] || !rx[0].Arrived? {
      WaitEnds(cfg, Collecting(cfg, length, have, k), rx, credit);
    } else if IsNext(rx[0].data) {
      NextFollows(cfg, length, have, k, rx, credit);
    } else {
      NextsStep(rx);
      CallFollows(cfg, length, have, k, rx[1..], credit);
    }
  }

  lemma {:induction false} NextFollows(cfg: Config, length: nat, have: seq<byte>, k: nat, rx: seq<Event>, credit: nat)
    requires |have| < length && rx != [] && rx[0].Arrived? && IsNext(rx[0].data)
    ensures Follows(RunReceiver(cfg, Collecting(cfg, length, have, k), rx, credit), cfg, length, have, k, rx, credit)
    decreases |rx|, 1
  {
    var d := rx[0].data;
    NextsStep(rx);
    TakenStep(length, cfg.blockSize, have, k, d, Nexts(rx[1..]));
    if |d| < 2 || d[0] % 16 != (k + 1) % 16 {
      BadNext(cfg, length, have, k, d);
    } else {
      var more := have + d[1..Min(|d|, 1 + length - |have|)];
      GoodNext(cfg, length, have, k, d);
      if |more| < length {
        CallFollows(cfg, length, more, k + 1, rx[1..], credit);
        if cfg.blockSize > 0 && (k + 1) % cfg.blockSize == 0 {
          GrantThenFollows(cfg, length, more, k, rx[1..], credit);
        }
      }
    }
  }

  lemma {:induction false} GrantThenFollows(
    cfg: Config, length: nat, more: seq<byte>, k: nat, rest: seq<Event>, credit: nat)
    requires |more| < length && cfg.blockSize > 0 && (k + 1) % cfg.blockSize == 0
    ensures var c := RunReceiver(cfg, RGrant(length, more, (k + 2) % 256, 0), rest, credit);
      var t := Taken(length, cfg.blockSize, more, k + 1, Nexts(rest));
      FollowsTaking(c, t.(grants := t.grants + 1), Ending(rest), credit) && SendsGrants(c, cfg, credit)
    decreases |rest|, 3
  {
    Resumes(cfg, length, more, k);
    if credit > 0 {
      CallFollows(cfg, length, more, k + 1, rest, credit - 1);
      GrantFollows(cfg, RunReceiver(cfg, Collecting(cfg, length, more, k + 1), rest, credit - 1),
                   Taken(length, cfg.blockSize, more, k + 1, Nexts(rest)), Ending(rest), credit - 1);
    }
  }

  // ---------------------------------------------------------------- whole calls

  /** What a call of recv comes to: the kind of the first frame heard decides. */
  ghost predicate RecvOutcome(c: Call<seq<byte>>, cfg: Config, rx: seq<Event>, credit: nat) {
    if rx == [] || !rx[0].Arrived? then c.outcome == Err(Ending(rx)) && c.sent == []
    else
      var d, rest := rx[0].data, rx[1..];
      if |d| >= 1 && d[0] / 16 == 0 then
        && c.sent == []
        && c.outcome == if 1 <= d[0] % 16 < |d| then Ok(d[1..1 + d[0] % 16]) else Err(BadMessage)
      else if |d| >= 2 && d[0] / 16 == 1 then
        var t := Taken(d[0] % 16 * 256 + d[1] as int, cfg.blockSize, d[2..], 0, Nexts(rest));
        FollowsTaking(c, t.(grants := t.grants + 1), Ending(rest), credit)
      else c.outcome == Err(BadMessage) && c.sent == []
  }

  lemma FirstFrameFollows(cfg: Config, length: nat, have: seq<byte>, rest: seq<Event>, credit: nat)
    ensures var c := RunReceiver(cfg, RGrant(length, have, 1, 0), rest, credit);
      var t := Taken(length, cfg.blockSize, have, 0, Nexts(rest));
      FollowsTaking(c, t.(grants := t.grants + 1), Ending(rest), credit) && SendsGrants(c, cfg, credit)
  {
    if credit > 0 {
      var r := AfterGrant(RGrant(length, have, 1, 0));
      if |have| < length {
        assert r == Collecting(cfg, length, have, 0);
        CallFollows(cfg, length, have, 0, rest, credit - 1);
      }
      GrantFollows(cfg, RunReceiver(cfg, r, rest, credit - 1),
                   Taken(length, cfg.blockSize, have, 0, Nexts(rest)), Ending(rest), credit - 1);
    }
  }

  /** Exactly what recv does, for every stream of events and every bus: how it ends, with which
      message, and every frame it puts out. */
  lemma RecvDoesExactly(cfg: Config, rx: seq<Event>, credit: nat)
    ensures var c := RunReceiver(cfg, RIdle, rx, credit); RecvOutcome(c, cfg, rx, credit) && SendsGrants(c, cfg, credit)
  {
    if rx == [] || !rx[0].Arrived? {
      WaitEnds(cfg, RIdle, rx, credit);
    } else {
      var d := rx[0].data;
      if |d| >= 2 && d[0] / 16 == 1 {
        FirstFrameFollows(cfg, d[0] % 16 * 256 + d[1] as int, d[2..], rx[1..], credit);
      }
    }
  }
}
