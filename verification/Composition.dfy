/** End-to-end protection carried by ISO-TP: what Protector wraps (src/safety/e2e.cpp) and a
    connection segments (src/isotp/transport.cpp) comes out as the payload that went in. */
module Composition {
  import opened Bytes
  import E2E
  import IsoTp
  import IsoTpLink
  import IsoTpRuns

  /** The receiving end has returned a message, and unwrapping it yields payload. */
  ghost predicate Arrived(
    e2e: E2E.Config, st: E2E.RxState, seqNo: E2E.counter, payload: seq<byte>, l: IsoTpLink.Link)
  {
    && l.r.RDone? && l.r.outcome.Ok?
    && E2E.Unwrapped(e2e, st, l.r.outcome.value) == (Ok(payload), E2E.RxState(false, seqNo))
  }

  /** A protected payload of up to 4085 bytes fits one ISO-TP message and always needs a
      First Frame. A lossless run over which both sides come to rest delivers the payload,
      if the counter is the one awaited, exactly when the First Frame gets to the receiver
      ahead of unrelated frames; nothing else is ever delivered. */
  lemma ProtectedPayloadArrives(
    e2e: E2E.Config, st: E2E.RxState, seqNo: E2E.counter, payload: seq<byte>,
    cfg: IsoTp.Config, junk: nat, steps: seq<IsoTpLink.Step>)
    requires |payload| <= 4085 && (st.first || seqNo == E2E.Expected(st))
    requires var data := E2E.Frame(e2e, seqNo, payload);
      IsoTpLink.Run(data, cfg, IsoTpLink.Start(data, junk), steps).Some?
    ensures var data := E2E.Frame(e2e, seqNo, payload);
      var l := IsoTpLink.Run(data, cfg, IsoTpLink.Start(data, junk), steps).value;
      && IsoTpLink.Fits(data, l)
      && (l.r.RDone? && l.r.outcome.Ok? ==> Arrived(e2e, st, seqNo, payload, l))
      && (IsoTpLink.Quiescent(data, l) ==>
            (Arrived(e2e, st, seqNo, payload, l) <==> IsoTpLink.FirstFrameLeads(steps)))
  {
    var data := E2E.Frame(e2e, seqNo, payload);
    E2E.FrameFields(e2e, seqNo, payload);
    E2E.UnwrapOfFrame(e2e, st, seqNo, payload);
    if IsoTpLink.FirstFrameLeads(steps) {
      IsoTpLink.EveryRunDelivers(data, cfg, junk, steps);
    } else {
      IsoTpRuns.OvertakenRunFails(data, cfg, junk, steps);
    }
  }

  /** Anything longer is refused before a frame goes out. */
  lemma LongerIsRefused(e2e: E2E.Config, seqNo: E2E.counter, payload: seq<byte>)
    ensures IsoTp.SenderStart(E2E.Frame(e2e, seqNo, payload)) == IsoTp.SDone(Err(IsoTp.PayloadTooLarge))
            <==> |payload| > 4085
  {
    E2E.FrameFields(e2e, seqNo, payload);
  }
}
