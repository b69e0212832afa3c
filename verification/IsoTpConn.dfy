/** The Conn methods of src/isotp/transport.cpp, loops and all, against the step
    machines of module IsoTp. */
module IsoTpConn {
  import opened Bytes
  import opened IsoTp
  import opened IsoTpSend
  import opened IsoTpRecv

  class Conn {
    const cfg: Config
    var rx: seq<Event>     // what the receive channel will yield
    var tx: seq<pdu>       // the frames the bus has taken
    var credit: nat        // how many more frames the bus will take

    constructor (cfg: Config, rx: seq<Event>, credit: nat)
      ensures this.cfg == cfg && this.rx == rx && tx == [] && this.credit == credit
    {
      this.cfg, this.rx, tx, this.credit := cfg, rx, [], credit;
    }

    method BusSend(data: pdu) returns (ok: bool)
      modifies this
      ensures ok == (old(credit) > 0)
      ensures rx == old(rx)
      ensures ok ==> tx == old(tx) + [data] && credit == old(credit) - 1
      ensures !ok ==> tx == old(tx) && credit == old(credit)
    {
      ok := credit > 0;
      if ok {
        tx, credit := tx + [data], credit - 1;
      }
    }

    /** rx_ch_->recv_for: silence after the last event is a timeout. */
    method NextEvent() returns (e: Event)
      modifies this`rx
      ensures e == if old(rx) == [] then TimedOut else old(rx)[0]
      ensures rx == if old(rx) == [] then [] else old(rx)[1..]
    {
      if rx == [] {
        return TimedOut;
      }
      e := rx[0];
      rx := rx[1..];
    }

    method WaitFc() returns (r: Result<pdu, Error>)
      modifies this`rx
      ensures (r, rx) == Await(old(rx), IsFlowControl)
      ensures r.Ok? ==> IsFlowControl(r.value)
    {
      while true
        invariant Await(rx, IsFlowControl) == Await(old(rx), IsFlowControl)
        decreases |rx|
      {
        var e := NextEvent();
        match e
        case TimedOut => return Err(TimedOutError);
        case Closed => return Err(ConnectionAborted);
        case Arrived(d) =>
          if IsFlowControl(d) {
            return Ok(d);
          }
      }
    }

    method RecvCf() returns (r: Result<pdu, Error>)
      modifies this`rx
      ensures (r, rx) == Await(old(rx), IsConsecutive)
      ensures r.Ok? ==> IsConsecutive(r.value)
    {
      while true
        invariant Await(rx, IsConsecutive) == Await(old(rx), IsConsecutive)
        decreases |rx|
      {
        var e := NextEvent();
        match e
        case TimedOut => return Err(TimedOutError);
        case Closed => return Err(ConnectionAborted);
        case Arrived(d) =>
          if IsConsecutive(d) {
            return Ok(d);
          }
      }
    }

    /** Builds and sends the frame that sender state s calls for. */
    method Emit(payload: seq<byte>, s: Sender, ghost whole: Call<()>) returns (ok: bool)
      requires SenderMidway(whole, payload, s, tx, rx, credit) && (s.SFirst? || s.SEmit?)
      modifies this
      ensures !ok ==> whole == Call(Err(BusError), tx, rx, credit)
      ensures ok ==> SenderMidway(whole, payload, AfterEmit(payload, s), tx, rx, credit)
    {
      SenderEmitStep(whole, payload, s, tx, rx, credit);
      if s.SFirst? {
        var len16 := |payload|;
        ok := BusSend([0x10 + len16 / 256 % 16, len16 % 256] + payload[..6]);
      } else {
        var chunkLen := Min(7, |payload| - s.offset);
        ok := BusSend([0x20 + s.sn % 16] + payload[s.offset..s.offset + chunkLen]);
      }
    }

    /** WaitFc in the middle of the call whole: only the flow control moves the sender on. */
    method WaitGrant(payload: seq<byte>, ghost whole: Call<()>, ghost s: Sender)
      returns (r: Result<Grant, Error>)
      requires SenderMidway(whole, payload, s, tx, rx, credit) && Listens(s)
      modifies this`rx
      ensures r.Err? ==> whole == Call(Err(r.error), tx, rx, credit)
      ensures r.Ok? ==> SenderMidway(whole, payload, OnGrant(payload, s, r.value), tx, rx, credit)
    {
      SenderListenStep(whole, payload, s, tx, rx, credit);
      var fc := WaitFc();
      r := if fc.Ok? then Ok(ReadGrant(fc.value)) else Err(fc.error);
    }

    method Send(payload: seq<byte>) returns (r: Result<(), Error>)
      modifies this
      ensures var c := RunSender(payload, SenderStart(payload), old(rx), old(credit));
        r == c.outcome && tx == old(tx) + c.sent && rx == c.rest && credit == c.credit
      ensures old(tx) <= tx
      ensures var c := Call(r, tx[|old(tx)|..], rx, credit);
        && SendOutcome(c, payload, old(rx), old(credit)) && c.credit + |c.sent| == old(credit)
        && forall j :: 0 <= j < |c.sent| ==> IsFrameOf(c.sent[j], payload, j)
    {
      SendExactly(payload, rx, credit);
      if |payload| == 0 {
        return Err(InvalidArgument);
      }
      if |payload| > MAX_PAYLOAD {
        return Err(PayloadTooLarge);
      }
      if |payload| <= 7 {
        r := SendSingleFrame(payload);
      } else {
        r := SendMultiFrame(payload);
      }
    }

    method SendSingleFrame(payload: seq<byte>) returns (r: Result<(), Error>)
      requires 1 <= |payload| <= 7
      modifies this
      ensures var c := RunSender(payload, SSingle, old(rx), old(credit));
        r == c.outcome && tx == old(tx) + c.sent && rx == c.rest && credit == c.credit
    {
      var ok := BusSend([|payload|] + payload);
      r := if ok then Ok(()) else Err(BusError);
    }

    /** The First Frame and the flow control that answers it. */
    method SendFirstFrame(payload: seq<byte>, ghost whole: Call<()>) returns (r: Result<Grant, Error>)
      requires 8 <= |payload| <= MAX_PAYLOAD && SenderMidway(whole, payload, SFirst, tx, rx, credit)
      modifies this
      ensures r.Err? ==> whole == Call(Err(r.error), tx, rx, credit)
      ensures r.Ok? ==> SenderMidway(whole, payload, Turn(payload, 6, 1, 0, r.value), tx, rx, credit)
    {
      var ok := Emit(payload, SFirst, whole);
      if !ok {
        return Err(BusError);
      }
      r := WaitGrant(payload, whole, SAwaitFirst);
      if r.Ok? && r.value.status == OVERFLOW {
        return Err(NoBufferSpace);
      }
    }

    /** One turn of the loop: the consecutive frame at offset, with the flow controls
        awaited before it after a WAIT and after it at the end of a block. */
    method SendConsecutive(
      payload: seq<byte>, offset: nat, sn: byte, grant0: Grant, blockCount0: nat, ghost whole: Call<()>)
      returns (r: Result<Grant, Error>, blockCount: nat)
      requires 6 <= offset < |payload| <= MAX_PAYLOAD
      requires SenderMidway(whole, payload, Turn(payload, offset, sn, blockCount0, grant0), tx, rx, credit)
      modifies this
      ensures r.Err? ==> whole == Call(Err(r.error), tx, rx, credit)
      ensures r.Ok? ==> SenderMidway(whole, payload,
        Turn(payload, offset + Min(7, |payload| - offset), (sn + 1) % 256, blockCount, r.value), tx, rx, credit)
    {
      var grant := grant0;
      blockCount := blockCount0;
      if grant.status == WAIT {
        r := WaitGrant(payload, whole, SAwaitAfterWait(offset, sn));
        if r.Err? {
          return;
        }
        grant, blockCount := r.value, 0;
      }

      var ok := Emit(payload, SEmit(offset, sn, blockCount, grant), whole);
      if !ok {
        return Err(BusError), blockCount;
      }
      blockCount := blockCount + 1;
      r := Ok(grant);

      if grant.blockSize > 0 && blockCount >= grant.blockSize {
        r := WaitGrant(payload, whole, SAwaitBlock(offset + Min(7, |payload| - offset), (sn + 1) % 256));
        blockCount := 0;
      }
    }

    method SendMultiFrame(payload: seq<byte>) returns (r: Result<(), Error>)
      requires 8 <= |payload| <= MAX_PAYLOAD
      modifies this
      ensures var c := RunSender(payload, SFirst, old(rx), old(credit));
        r == c.outcome && tx == old(tx) + c.sent && rx == c.rest && credit == c.credit
    {
      ghost var whole := Prepend(tx, RunSender(payload, SFirst, rx, credit));
      var fc := SendFirstFrame(payload, whole);
      if fc.Err? {
        return Err(fc.error);
      }
      var grant, offset, sn: byte, blockCount := fc.value, 6, 1, 0;
      while offset < |payload|
        invariant 6 <= offset <= |payload|
        invariant SenderMidway(whole, payload, Turn(payload, offset, sn, blockCount, grant), tx, rx, credit)
      {
        fc, blockCount := SendConsecutive(payload, offset, sn, grant, blockCount, whole);
        if fc.Err? {
          return Err(fc.error);
        }
        grant := fc.value;
        offset := offset + Min(7, |payload| - offset);
        sn := (sn + 1) % 256;
      }
      return Ok(());
    }

    /** Sends the receiver's clear-to-send in the middle of the call whole. */
    method SendGrant(ghost whole: Call<seq<byte>>, ghost r: Receiver) returns (ok: bool)
      requires ReceiverMidway(whole, cfg, r, tx, rx, credit) && r.RGrant?
      modifies this
      ensures !ok ==> whole == Call(Err(BusError), tx, rx, credit)
      ensures ok ==> ReceiverMidway(whole, cfg, AfterGrant(r), tx, rx, credit)
    {
      ReceiverGrantStep(whole, cfg, r, tx, rx, credit);
      ok := BusSend([0x30, cfg.blockSize, cfg.stMin]);
    }

    /** RecvCf in the middle of the call whole. */
    method WaitConsecutive(ghost whole: Call<seq<byte>>, ghost r: Receiver) returns (cf: Result<pdu, Error>)
      requires ReceiverMidway(whole, cfg, r, tx, rx, credit) && r.RCollect?
      modifies this`rx
      ensures cf.Err? ==> whole == Call(Err(cf.error), tx, rx, credit)
      ensures cf.Ok? ==> IsConsecutive(cf.value)
      ensures cf.Ok? ==> ReceiverMidway(whole, cfg, OnConsecutive(cfg, r, cf.value), tx, rx, credit)
    {
      ReceiverCollectStep(whole, cfg, r, tx, rx, credit);
      cf := RecvCf();
    }

    method Recv() returns (r: Result<seq<byte>, Error>)
      modifies this
      ensures var c := RunReceiver(cfg, RIdle, old(rx), old(credit));
        r == c.outcome && tx == old(tx) + c.sent && rx == c.rest && credit == c.credit
      ensures old(tx) <= tx
      ensures var c := Call(r, tx[|old(tx)|..], rx, credit);
        RecvOutcome(c, cfg, old(rx), old(credit)) && SendsGrants(c, cfg, old(credit))
    {
      RecvDoesExactly(cfg, rx, credit);
      var e := NextEvent();
      if e.TimedOut? {
        return Err(TimedOutError);
      }
      if e.Closed? {
        return Err(ConnectionAborted);
      }
      var first := e.data;
      if |first| == 0 {
        return Err(BadMessage);
      }
      var frameType := first[0] / 16;
      if frameType == 0 {
        var length := first[0] % 16;
        if length == 0 || length > |first| - 1 {
          return Err(BadMessage);
        }
        return Ok(first[1..1 + length]);
      }
      if frameType != 1 {
        return Err(BadMessage);
      }
      if |first| < 2 {
        return Err(BadMessage);
      }
      r := Collect(DeclaredLength(first), first[2..]);
    }

    /** The First Frame branch of recv, from its flow control on. */
    method Collect(length: nat, buf0: seq<byte>) returns (r: Result<seq<byte>, Error>)
      modifies this
      ensures var c := RunReceiver(cfg, RGrant(length, buf0, 1, 0), old(rx), old(credit));
        r == c.outcome && tx == old(tx) + c.sent && rx == c.rest && credit == c.credit
    {
      ghost var start := RGrant(length, buf0, 1, 0);
      ghost var whole := Prepend(tx, RunReceiver(cfg, start, rx, credit));
      assert ReceiverMidway(whole, cfg, start, tx, rx, credit);
      var ok := SendGrant(whole, start);
      if !ok {
        return Err(BusError);
      }

      var buf, sn: byte, cfInBlock := buf0, 1, 0;
      while |buf| < length
        invariant ReceiverMidway(whole, cfg, RTurn(length, buf, sn, cfInBlock), tx, rx, credit)
        decreases length - |buf|
      {
        var cf := WaitConsecutive(whole, RCollect(length, buf, sn, cfInBlock));
        if cf.Err? {
          return Err(cf.error);
        }
        var d := cf.value;
        if d[0] % 16 != sn % 16 {
          return Err(BadMessage);
        }
        if |d| < 2 {
          return Err(BadMessage);
        }
        var chunkLen := Min(|d| - 1, length - |buf|);
        buf := buf + d[1..1 + chunkLen];
        sn := (sn + 1) % 256;
        if cfg.blockSize != 0 && |buf| < length {
          cfInBlock := cfInBlock + 1;
          if cfInBlock == cfg.blockSize {
            ok := SendGrant(whole, RGrant(length, buf, sn, 0));
            if !ok {
              return Err(BusError);
            }
            cfInBlock := 0;
          }
        }
      }
      return Ok(buf);
    }
  }
}
