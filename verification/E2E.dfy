/** End-to-end protection (src/safety/e2e.cpp): the 10-byte header, the Protector
    and the Receiver. */
module E2E {
  import opened Bytes
  import opened Division
  import opened Crc16
  import opened CrcBits
  import opened CrcBurst
  import opened CrcMeaning

  const HEADER_SIZE: nat := 10
  const COUNTERS: nat := 0x1_0000_0000

  /** uint32_t, the type of the sequence counter */
  type counter = x: int | 0 <= x < COUNTERS

  datatype Config = Config(dataId: word, sourceId: word)

  datatype ErrorKind = CRCMismatch | SequenceGap | HeaderTooShort

  datatype E2EError = E2EError(kind: ErrorKind, counter: counter)

  // ---------------------------------------------------------------- the header

  function WordBytes(w: word): seq<byte> { [Octet(w), Octet(w / 256)] }

  /** static_cast<uint8_t> */
  function Octet(n: nat): byte { n % 256 }

  function CounterBytes(c: counter): seq<byte> {
    [Octet(c), Octet(c / 0x100), Octet(c / 0x1_0000), Octet(c / 0x100_0000)]
  }

  function ReadWord(lo: int, hi: int): int { lo + 256 * hi }

  function ReadCounter(b0: int, b1: int, b2: int, b3: int): int {
    b0 + 0x100 * b1 + 0x1_0000 * b2 + 0x100_0000 * b3
  }

  function Ids(cfg: Config): (s: seq<byte>)
    ensures |s| == 4
  {
    WordBytes(cfg.dataId) + WordBytes(cfg.sourceId)
  }

  /** What the checksum covers: the identifiers, the counter and the payload. */
  function Checksum(cfg: Config, seqNo: counter, payload: seq<byte>): word {
    Crc(Ids(cfg) + CounterBytes(seqNo) + payload)
  }

  function Header(cfg: Config, seqNo: counter, payload: seq<byte>): (hdr: seq<byte>)
    ensures |hdr| == HEADER_SIZE
  {
    Ids(cfg) + CounterBytes(seqNo) + WordBytes(Checksum(cfg, seqNo, payload))
  }

  /** The protected form of a payload. */
  function Frame(cfg: Config, seqNo: counter, payload: seq<byte>): seq<byte> {
    Header(cfg, seqNo, payload) + payload
  }

  lemma WordReadsBack(w: word)
    ensures ReadWord(Octet(w), Octet(w / 256)) == w
  {
  }

  lemma HeaderChecksum(cfg: Config, seqNo: counter, payload: seq<byte>)
    ensures var hdr := Header(cfg, seqNo, payload); ReadWord(hdr[8], hdr[9]) == Checksum(cfg, seqNo, payload)
  {
    WordReadsBack(Checksum(cfg, seqNo, payload));
  }

  lemma FoldSnoc(crc: word, s: seq<byte>, i: nat)
    requires i < |s|
    ensures Fold(crc, s[..i + 1]) == Absorb(Fold(crc, s[..i]), s[i])
  {
    assert s[..i + 1][..i] == s[..i];
  }

  /** The first checksum loop of build_header, over header octets 0 to 7. */
  method HeaderCrc(hdr: array<byte>) returns (crc: word)
    requires hdr.Length == HEADER_SIZE
    ensures crc == Fold(INIT, hdr[..8])
  {
    crc := INIT;
    ghost var covered := hdr[..8];
    for i := 0 to 8
      invariant crc == Fold(INIT, covered[..i])
    {
      FoldSnoc(INIT, covered, i);
      crc := AbsorbByte(crc, hdr[i]);
    }
    assert covered[..8] == covered;
  }

  /** The second, which goes on over the payload. */
  method PayloadCrc(start: word, payload: seq<byte>) returns (crc: word)
    ensures crc == Fold(start, payload)
  {
    crc := start;
    for i := 0 to |payload|
      invariant crc == Fold(start, payload[..i])
    {
      FoldSnoc(start, payload, i);
      crc := AbsorbByte(crc, payload[i]);
    }
    assert payload[..|payload|] == payload;
  }

  lemma EightOctets(ids: seq<byte>, ctr: seq<byte>, hdr: seq<byte>)
    requires |ids| == |ctr| == 4 && |hdr| == HEADER_SIZE
    requires hdr[0] == ids[0] && hdr[1] == ids[1] && hdr[2] == ids[2] && hdr[3] == ids[3]
    requires hdr[4] == ctr[0] && hdr[5] == ctr[1] && hdr[6] == ctr[2] && hdr[7] == ctr[3]
    ensures hdr[..8] == ids + ctr
  {
  }

  /** The first eight octets, the checksum still zero. */
  method NewHeader(cfg: Config, seqNo: counter) returns (hdr: array<byte>)
    ensures fresh(hdr) && hdr.Length == HEADER_SIZE && hdr[..8] == Ids(cfg) + CounterBytes(seqNo)
  {
    hdr := new byte[10](_ => 0);
    hdr[0], hdr[1] := Octet(cfg.dataId), Octet(cfg.dataId / 256);
    hdr[2], hdr[3] := Octet(cfg.sourceId), Octet(cfg.sourceId / 256);
    hdr[4], hdr[5] := Octet(seqNo), Octet(seqNo / 0x100);
    hdr[6], hdr[7] := Octet(seqNo / 0x1_0000), Octet(seqNo / 0x100_0000);
    EightOctets(Ids(cfg), CounterBytes(seqNo), hdr[..]);
    assert hdr[..][..8] == hdr[..8];
  }

  method BuildHeader(cfg: Config, seqNo: counter, payload: seq<byte>) returns (hdr: array<byte>)
    ensures fresh(hdr) && hdr[..] == Header(cfg, seqNo, payload)
  {
    hdr := NewHeader(cfg, seqNo);
    var crc := HeaderCrc(hdr);
    crc := PayloadCrc(crc, payload);
    FoldConcat(INIT, hdr[..8], payload);
    ghost var prefix := hdr[..8];
    hdr[8], hdr[9] := Octet(crc), Octet(crc / 256);
    assert hdr[..8] == prefix && hdr[..] == hdr[..8] + [hdr[8], hdr[9]];
  }

  // ---------------------------------------------------------------- the octets

  /** What goes over the wire for the n-th payload: two identifiers and the counter, low octet
      first, then the checksum over them and the payload, then the payload. */
  ghost predicate IsProtected(data: seq<byte>, cfg: Config, n: nat, payload: seq<byte>) {
    && |data| == 10 + |payload|
    && data[0] == cfg.dataId % 256 && data[1] == cfg.dataId / 256
    && data[2] == cfg.sourceId % 256 && data[3] == cfg.sourceId / 256
    && data[4] == n % 256 && data[5] == n / 256 % 256 && data[6] == n / 65536 % 256 && data[7] == n / 16777216
    && IsRemainder(data[..8] + data[10..], data[8] as int + 256 * data[9] as int)
    && data[10..] == payload
  }

  lemma CoveredOctets(ids: seq<byte>, ctr: seq<byte>, crc: seq<byte>, payload: seq<byte>)
    requires |ids| == 4 && |ctr| == 4 && |crc| == 2
    ensures var f := ids + ctr + crc + payload;
      && |f| == 10 + |payload| && f[10..] == payload && f[..8] + f[10..] == ids + ctr + payload
      && f[0] == ids[0] && f[1] == ids[1] && f[2] == ids[2] && f[3] == ids[3]
      && f[4] == ctr[0] && f[5] == ctr[1] && f[6] == ctr[2] && f[7] == ctr[3]
      && f[8] == crc[0] && f[9] == crc[1]
  {
    var f := ids + ctr + crc + payload;
    assert f[..8] == ids + ctr && f[10..] == payload;
  }

  lemma SmallOctet(w: nat, unit: nat)
    requires unit > 0 && w < 256 * unit
    ensures w / unit < 256 && w / unit % 256 == w / unit
  {
    var q, r := w / unit, w % unit;
    assert q * unit == w - r;
    if q >= 256 {
      Distribute(q, unit);
    }
    SmallModulus(q, 256);
  }

  lemma Distribute(q: nat, unit: nat)
    requires q >= 256
    ensures q * unit >= 256 * unit
  {
    assert q * unit == 256 * unit + (q - 256) * unit;
  }

  lemma FrameIsProtected(cfg: Config, n: counter, payload: seq<byte>)
    ensures IsProtected(Frame(cfg, n, payload), cfg, n, payload)
  {
    var crc := Checksum(cfg, n, payload);
    CoveredOctets(Ids(cfg), CounterBytes(n), WordBytes(crc), payload);
    SmallOctet(cfg.dataId, 256);
    SmallOctet(cfg.sourceId, 256);
    SmallOctet(n, 0x100_0000);
    WordReadsBack(crc);
    CrcIsRemainder(Ids(cfg) + CounterBytes(n) + payload, crc);
  }

  // ---------------------------------------------------------------- sender and receiver

  /** The header and the payload behind it. */
  method Assemble(cfg: Config, seqNo: counter, payload: seq<byte>) returns (out: seq<byte>)
    ensures out == Frame(cfg, seqNo, payload)
  {
    var hdr := BuildHeader(cfg, seqNo, payload);
    out := hdr[..] + payload;
  }

  class Protector {
    const cfg: Config
    var seqNo: counter

    constructor (cfg: Config)
      ensures this.cfg == cfg && seqNo == 0
    {
      this.cfg := cfg;
      seqNo := 0;
    }

    method Protect(payload: seq<byte>) returns (out: seq<byte>)
      modifies this
      ensures out == Frame(cfg, old(seqNo), payload) && IsProtected(out, cfg, old(seqNo), payload)
      ensures seqNo == if old(seqNo) == 0xFFFF_FFFF then 0 else old(seqNo) + 1
    {
      var s := seqNo;
      seqNo := (seqNo + 1) % COUNTERS;
      out := Assemble(cfg, s, payload);
      FrameIsProtected(cfg, s, payload);
    }
  }

  datatype RxState = RxState(first: bool, lastSeq: counter)

  const FRESH := RxState(true, 0)

  /** The counter the receiver waits for, once it has accepted a frame. */
  function Expected(st: RxState): counter { (st.lastSeq + 1) % COUNTERS }

  function CounterOf(data: seq<byte>): counter
    requires |data| >= HEADER_SIZE
  {
    ReadCounter(data[4], data[5], data[6], data[7])
  }

  function Unwrapped(cfg: Config, st: RxState, data: seq<byte>): (Result<seq<byte>, E2EError>, RxState) {
    if |data| < HEADER_SIZE then
      (Err(E2EError(HeaderTooShort, 0)), st)
    else
      var seqNo, payload := CounterOf(data), data[HEADER_SIZE..];
      if ReadWord(data[8], data[9]) != Checksum(cfg, seqNo, payload) then
        (Err(E2EError(CRCMismatch, seqNo)), st)
      else if !st.first && seqNo != Expected(st) then
        (Err(E2EError(SequenceGap, seqNo)), st)
      else
        (Ok(payload), RxState(false, seqNo))
  }

  function WireIds(cfg: Config): seq<byte> {
    [cfg.dataId % 256, cfg.dataId / 256, cfg.sourceId % 256, cfg.sourceId / 256]
  }

  function WireCounter(data: seq<byte>): counter
    requires |data| >= 10
  {
    data[4] as int + 256 * data[5] as int + 65536 * data[6] as int + 16777216 * data[7] as int
  }

  function WireChecksum(data: seq<byte>): nat
    requires |data| >= 10
  {
    data[8] as int + 256 * data[9] as int
  }

  /** The checksum is the remainder of the receiver's identifiers, the counter and the payload. */
  ghost predicate Genuine(cfg: Config, data: seq<byte>)
    requires |data| >= 10
  {
    IsRemainder(WireIds(cfg) + data[4..8] + data[10..], WireChecksum(data))
  }

  /** The counter a receiver that has taken last waits for. */
  function Successor(last: counter): counter { if last == 0xFFFF_FFFF then 0 else last + 1 }

  /** What unwrap makes of any octets: refused as too short, for the checksum, or for a counter
      that does not follow the last one taken; otherwise taken. Refusals leave the state. */
  ghost predicate Judged(
    cfg: Config, st: RxState, data: seq<byte>, r: Result<seq<byte>, E2EError>, st': RxState)
  {
    if |data| < 10 then r == Err(E2EError(HeaderTooShort, 0)) && st' == st
    else if !Genuine(cfg, data) then r == Err(E2EError(CRCMismatch, WireCounter(data))) && st' == st
    else if !st.first && WireCounter(data) != Successor(st.lastSeq)
    then r == Err(E2EError(SequenceGap, WireCounter(data))) && st' == st
    else r == Ok(data[10..]) && st' == RxState(false, WireCounter(data))
  }

  lemma IdOctets(cfg: Config)
    ensures Ids(cfg) == WireIds(cfg)
  {
    SmallOctet(cfg.dataId, 256);
    SmallOctet(cfg.sourceId, 256);
  }

  lemma CounterOctets(data: seq<byte>)
    requires |data| >= 10
    ensures CounterBytes(CounterOf(data)) == data[4..8]
  {
    var a: int, b: int, c: int, d: int := data[4], data[5], data[6], data[7];
    var n: int := CounterOf(data);
    Split(n, 0x100, b + 0x100 * c + 0x1_0000 * d, a);
    Split(n, 0x1_0000, c + 0x100 * d, a + 0x100 * b);
    Split(n, 0x100_0000, d, a + 0x100 * b + 0x1_0000 * c);
    Split(n / 0x100, 0x100, c + 0x100 * d, b);
    Split(n / 0x1_0000, 0x100, d, c);
    SmallModulus(d, 0x100);
    assert data[4..8] == [a, b, c, d];
  }

  /** The comparison of the checksums. */
  lemma ChecksumJudges(cfg: Config, data: seq<byte>)
    requires |data| >= 10
    ensures ReadWord(data[8], data[9]) == Checksum(cfg, CounterOf(data), data[10..]) <==> Genuine(cfg, data)
  {
    IdOctets(cfg);
    CounterOctets(data);
    CrcIsRemainder(Ids(cfg) + data[4..8] + data[10..], WireChecksum(data));
  }

  lemma SuccessorIs(st: RxState)
    ensures Expected(st) == Successor(st.lastSeq)
  {
  }

  lemma UnwrapJudges(cfg: Config, st: RxState, data: seq<byte>)
    ensures Judged(cfg, st, data, Unwrapped(cfg, st, data).0, Unwrapped(cfg, st, data).1)
  {
    SuccessorIs(st);
    if |data| >= 10 {
      ChecksumJudges(cfg, data);
      assert CounterOf(data) == WireCounter(data);
    }
  }

  class Receiver {
    const cfg: Config
    var lastSeq: counter
    var first: bool

    function State(): RxState
      reads this
    {
      RxState(first, lastSeq)
    }

    constructor (cfg: Config)
      ensures this.cfg == cfg && State() == FRESH
    {
      this.cfg := cfg;
      lastSeq, first := 0, true;
    }

    /** Builds the header the octets should have and compares the checksums. */
    method ChecksumAgrees(data: seq<byte>, seqNo: counter, payload: seq<byte>) returns (ok: bool)
      requires |data| >= HEADER_SIZE
      ensures ok == (ReadWord(data[8], data[9]) == Checksum(cfg, seqNo, payload))
    {
      var receivedCrc := ReadWord(data[8], data[9]);
      var expectedHdr := BuildHeader(cfg, seqNo, payload);
      HeaderChecksum(cfg, seqNo, payload);
      assert expectedHdr[..][8] == expectedHdr[8] && expectedHdr[..][9] == expectedHdr[9];
      var expectedCrc := ReadWord(expectedHdr[8], expectedHdr[9]);
      ok := receivedCrc == expectedCrc;
    }

    method Unwrap(data: seq<byte>) returns (r: Result<seq<byte>, E2EError>)
      modifies this
      ensures (r, State()) == Unwrapped(cfg, old(State()), data)
      ensures Judged(cfg, old(State()), data, r, State())
    {
      UnwrapJudges(cfg, State(), data);
      if |data| < HEADER_SIZE {
        return Err(E2EError(HeaderTooShort, 0));
      }
      var seqNo: counter := ReadCounter(data[4], data[5], data[6], data[7]);
      var payload := data[HEADER_SIZE..];
      var ok := ChecksumAgrees(data, seqNo, payload);
      if !ok {
        return Err(E2EError(CRCMismatch, seqNo));
      }
      if !first && seqNo != (lastSeq + 1) % COUNTERS {
        return Err(E2EError(SequenceGap, seqNo));
      }
      first := false;
      lastSeq := seqNo;
      r := Ok(payload);
    }
  }

  // ---------------------------------------------------------------- round trip

  lemma PartsOfFrame(ids: seq<byte>, ctr: seq<byte>, crc: seq<byte>, payload: seq<byte>)
    requires |ids| == 4 && |ctr| == 4 && |crc| == 2
    ensures var f := ids + ctr + crc + payload;
      && f[4..8] == ctr && f[10..] == payload && f[8] == crc[0] && f[9] == crc[1]
      && f[4] == ctr[0] && f[5] == ctr[1] && f[6] == ctr[2] && f[7] == ctr[3]
  {
  }

  lemma CounterReadsBack(c: counter)
    ensures var b := CounterBytes(c); ReadCounter(b[0], b[1], b[2], b[3]) == c
  {
    var c1, c2, c3 := c / 0x100, c / 0x1_0000, c / 0x100_0000;
    assert c1 == 0x100 * c2 + c1 % 0x100;
    assert c2 == 0x100 * c3 + c2 % 0x100;
    SmallModulus(c3, 0x100);
  }

  lemma WordBytesReadBack(w: word)
    ensures ReadWord(WordBytes(w)[0], WordBytes(w)[1]) == w
  {
    WordReadsBack(w);
  }

  /** Whatever octets stand for the counter and the checksum. */
  lemma FieldsOfParts(ids: seq<byte>, ctr: seq<byte>, crc: seq<byte>, payload: seq<byte>)
    requires |ids| == 4 && |ctr| == 4 && |crc| == 2
    ensures var f := ids + ctr + crc + payload;
      && |f| == HEADER_SIZE + |payload| && f[4..8] == ctr && f[HEADER_SIZE..] == payload
      && ReadCounter(f[4], f[5], f[6], f[7]) == ReadCounter(ctr[0], ctr[1], ctr[2], ctr[3])
      && ReadWord(f[8], f[9]) == ReadWord(crc[0], crc[1])
  {
    PartsOfFrame(ids, ctr, crc, payload);
  }

  /** The fields of a protected frame, read back. */
  lemma FrameFields(cfg: Config, seqNo: counter, payload: seq<byte>)
    ensures var f := Frame(cfg, seqNo, payload);
      && |f| == HEADER_SIZE + |payload|
      && f[4..8] == CounterBytes(seqNo) && CounterOf(f) == seqNo
      && ReadWord(f[8], f[9]) == Checksum(cfg, seqNo, payload)
      && f[HEADER_SIZE..] == payload
  {
    var crc := Checksum(cfg, seqNo, payload);
    FieldsOfParts(Ids(cfg), CounterBytes(seqNo), WordBytes(crc), payload);
    CounterReadsBack(seqNo);
    WordBytesReadBack(crc);
  }

  /** An intact frame is judged by its counter alone: a fresh receiver takes any,
      an established one exactly the successor of the last it took (modulo 2^32),
      and a refusal leaves the state as it was. */
  lemma UnwrapOfFrame(cfg: Config, st: RxState, seqNo: counter, payload: seq<byte>)
    ensures Unwrapped(cfg, st, Frame(cfg, seqNo, payload)) ==
      if st.first || seqNo == Expected(st) then (Ok(payload), RxState(false, seqNo))
      else (Err(E2EError(SequenceGap, seqNo)), st)
  {
    FrameFields(cfg, seqNo, payload);
  }

  // ---------------------------------------------------------------- corruption

  /** The stream a burst is measured on: the counter octets, then the payload. The
      identifiers are rebuilt from the receiver's own configuration. */
  function Covered(data: seq<byte>): seq<byte>
    requires |data| >= HEADER_SIZE
  {
    data[4..8] + data[HEADER_SIZE..]
  }

  /** data' is data with a nonzero error confined to 16 consecutive covered bits,
      or with only its two checksum octets changed. */
  ghost predicate Damaged(data: seq<byte>, data': seq<byte>)
    requires |data| >= HEADER_SIZE
  {
    && |data'| == |data|
    && ((&& data'[8..10] == data[8..10]
         && Covered(data') != Covered(data)
         && exists p: nat :: AgreeOutside(Bits(Covered(data)), Bits(Covered(data')), p))
        || (data'[8..10] != data[8..10] && Covered(data') == Covered(data)))
  }

  lemma OctetsOfCounter(b0: byte, b1: byte, b2: byte, b3: byte)
    ensures var c := ReadCounter(b0, b1, b2, b3);
      && 0 <= c < COUNTERS && Octet(c) == b0 && Octet(c / 0x100) == b1
      && Octet(c / 0x1_0000) == b2 && Octet(c / 0x100_0000) == b3
  {
    var n0: int, n1: int, n2: int, n3: int := b0, b1, b2, b3;
    var c := ReadCounter(n0, n1, n2, n3);
    Split(c, 0x100, n1 + 0x100 * n2 + 0x1_0000 * n3, n0);
    Split(c, 0x1_0000, n2 + 0x100 * n3, n0 + 0x100 * n1);
    Split(c, 0x100_0000, n3, n0 + 0x100 * n1 + 0x1_0000 * n2);
    Split(c / 0x100, 0x100, n2 + 0x100 * n3, n1);
    Split(c / 0x1_0000, 0x100, n3, n2);
  }

  lemma CounterBytesOf(data: seq<byte>)
    requires |data| >= HEADER_SIZE
    ensures CounterBytes(CounterOf(data)) == data[4..8]
  {
    OctetsOfCounter(data[4], data[5], data[6], data[7]);
  }

  lemma ChecksumOfCovered(cfg: Config, data: seq<byte>)
    requires |data| >= HEADER_SIZE
    ensures Checksum(cfg, CounterOf(data), data[HEADER_SIZE..])
         == Fold(Fold(INIT, Ids(cfg)), Covered(data))
  {
    CounterBytesOf(data);
    assert Ids(cfg) + data[4..8] + data[HEADER_SIZE..] == Ids(cfg) + Covered(data);
    FoldConcat(INIT, Ids(cfg), Covered(data));
  }

  lemma DamageSpoilsChecksum(r: word, data: seq<byte>, data': seq<byte>)
    requires |data| >= HEADER_SIZE && Damaged(data, data')
    requires ReadWord(data[8], data[9]) == Fold(r, Covered(data))
    ensures ReadWord(data'[8], data'[9]) != Fold(r, Covered(data'))
  {
    assert data'[8..10] == [data'[8], data'[9]] && data[8..10] == [data[8], data[9]];
    if Covered(data') != Covered(data) {
      var p: nat :| AgreeOutside(Bits(Covered(data)), Bits(Covered(data')), p);
      BurstChangesCrc(r, Covered(data), Covered(data'), p);
      assert data'[8] == data[8] && data'[9] == data[9];
    }
  }

  /** Every burst of at most 16 covered bits, and every change to the checksum
      octets alone, is reported as CRCMismatch, whatever the receiver's state. */
  lemma DamageDetected(cfg: Config, st: RxState, seqNo: counter, payload: seq<byte>, data': seq<byte>)
    requires Damaged(Frame(cfg, seqNo, payload), data')
    ensures Unwrapped(cfg, st, data') == (Err(E2EError(CRCMismatch, CounterOf(data'))), st)
  {
    FrameFields(cfg, seqNo, payload);
    ChecksumOfCovered(cfg, Frame(cfg, seqNo, payload));
    ChecksumOfCovered(cfg, data');
    DamageSpoilsChecksum(Fold(INIT, Ids(cfg)), Frame(cfg, seqNo, payload), data');
  }

  /** One bit more and damage can pass: a frame whose payload was struck by the 17-bit
      pattern, its header untouched, is taken for the struck payload's own. */
  lemma SeventeenBitsPass(cfg: Config, st: RxState, seqNo: counter, before: seq<byte>, after: seq<byte>)
    requires st.first || seqNo == Expected(st)
    ensures var sent, struck := before + CLEAN + after, before + STRUCK + after;
      sent != struck && Unwrapped(cfg, st, Header(cfg, seqNo, sent) + struck) == (Ok(struck), RxState(false, seqNo))
  {
    var sent, struck, prefix := before + CLEAN + after, before + STRUCK + after, Ids(cfg) + CounterBytes(seqNo);
    SeventeenBitsEscape(Fold(INIT, prefix), before, after);
    FoldConcat(INIT, prefix, sent);
    FoldConcat(INIT, prefix, struck);
    UnwrapOfFrame(cfg, st, seqNo, struck);
    assert sent[|before| + 2] != struck[|before| + 2];
  }

  // ---------------------------------------------------------------- an unreliable channel

  /** What the channel presents next: frame k of one Protector as it was sent, or
      some damaged octets. Loss, duplication and reordering are the choice of k's. */
  datatype Arrival = Intact(k: nat) | Garbled(data: seq<byte>)

  /** Frame k of a Protector that started at counter 0. */
  function Sent(cfg: Config, payloads: seq<seq<byte>>, k: nat): seq<byte>
    requires k < |payloads|
  {
    Frame(cfg, k % COUNTERS, payloads[k])
  }

  ghost predicate ValidArrival(cfg: Config, payloads: seq<seq<byte>>, a: Arrival) {
    match a
    case Intact(k) => k < |payloads|
    case Garbled(data) =>
      || |data| < HEADER_SIZE
      || exists k: nat :: k < |payloads| && Damaged(Sent(cfg, payloads, k), data)
  }

  ghost predicate ValidArrivals(cfg: Config, payloads: seq<seq<byte>>, arrivals: seq<Arrival>) {
    forall i :: 0 <= i < |arrivals| ==> ValidArrival(cfg, payloads, arrivals[i])
  }

  ghost function WireOf(cfg: Config, payloads: seq<seq<byte>>, a: Arrival): seq<byte>
    requires ValidArrival(cfg, payloads, a)
  {
    match a
    case Intact(k) => Sent(cfg, payloads, k)
    case Garbled(data) => data
  }

  /** The payloads a receiver hands over as the channel presents its arrivals. */
  ghost function Delivered(cfg: Config, st: RxState, payloads: seq<seq<byte>>, arrivals: seq<Arrival>): seq<seq<byte>>
    requires ValidArrivals(cfg, payloads, arrivals)
    decreases |arrivals|
  {
    if arrivals == [] then []
    else
      var (r, st') := Unwrapped(cfg, st, WireOf(cfg, payloads, arrivals[0]));
      (if r.Ok? then [r.value] else []) + Delivered(cfg, st', payloads, arrivals[1..])
  }

  // ---------------------------------------------------------------- which frames are taken

  /** The state after presenting one arrival, judged by its number alone. */
  function Next(st: RxState, a: Arrival): RxState {
    if Takes(st, a) then RxState(false, a.k % COUNTERS) else st
  }

  predicate Takes(st: RxState, a: Arrival) {
    a.Intact? && (st.first || a.k % COUNTERS == Expected(st))
  }

  /** The numbers of the frames taken, in the order they are handed over. */
  function Taken(st: RxState, arrivals: seq<Arrival>): seq<nat>
    decreases |arrivals|
  {
    if arrivals == [] then []
    else
      (if Takes(st, arrivals[0]) then [arrivals[0].k] else [])
      + Taken(Next(st, arrivals[0]), arrivals[1..])
  }

  lemma GarbledRefused(cfg: Config, st: RxState, payloads: seq<seq<byte>>, data: seq<byte>)
    requires ValidArrival(cfg, payloads, Garbled(data))
    ensures Unwrapped(cfg, st, data).0.Err? && Unwrapped(cfg, st, data).1 == st
  {
    if |data| >= HEADER_SIZE {
      var k: nat :| k < |payloads| && Damaged(Sent(cfg, payloads, k), data);
      DamageDetected(cfg, st, k % COUNTERS, payloads[k], data);
    }
  }

  lemma ArrivalJudged(cfg: Config, st: RxState, payloads: seq<seq<byte>>, a: Arrival)
    requires ValidArrival(cfg, payloads, a)
    ensures var (r, st') := Unwrapped(cfg, st, WireOf(cfg, payloads, a));
      && st' == Next(st, a)
      && (r.Ok? <==> Takes(st, a))
      && (r.Ok? ==> r.value == payloads[a.k])
  {
    match a
    case Garbled(data) => GarbledRefused(cfg, st, payloads, data);
    case Intact(k) => UnwrapOfFrame(cfg, st, k % COUNTERS, payloads[k]);
  }

  function Pick(payloads: seq<seq<byte>>, ks: seq<nat>): seq<seq<byte>>
    requires forall i :: 0 <= i < |ks| ==> ks[i] < |payloads|
  {
    seq(|ks|, i requires 0 <= i < |ks| => payloads[ks[i]])
  }

  lemma PickCons(payloads: seq<seq<byte>>, k: nat, ks: seq<nat>)
    requires k < |payloads| && forall i :: 0 <= i < |ks| ==> ks[i] < |payloads|
    ensures forall i :: 0 <= i < |[k] + ks| ==> ([k] + ks)[i] < |payloads|
    ensures Pick(payloads, [k] + ks) == [payloads[k]] + Pick(payloads, ks)
  {
  }

  /** The first arrival adds its payload if it is taken, and nothing else. */
  lemma DeliveredUnfolds(cfg: Config, st: RxState, payloads: seq<seq<byte>>, arrivals: seq<Arrival>)
    requires ValidArrivals(cfg, payloads, arrivals) && arrivals != []
    ensures ValidArrivals(cfg, payloads, arrivals[1..])
    ensures Takes(st, arrivals[0]) ==> arrivals[0].k < |payloads|
    ensures var rest := Delivered(cfg, Next(st, arrivals[0]), payloads, arrivals[1..]);
      Delivered(cfg, st, payloads, arrivals)
        == if Takes(st, arrivals[0]) then [payloads[arrivals[0].k]] + rest else rest
  {
    assert ValidArrival(cfg, payloads, arrivals[0]);
    ArrivalJudged(cfg, st, payloads, arrivals[0]);
  }

  lemma TakenUnfolds(st: RxState, arrivals: seq<Arrival>)
    requires arrivals != []
    ensures var rest := Taken(Next(st, arrivals[0]), arrivals[1..]);
      Taken(st, arrivals) == if Takes(st, arrivals[0]) then [arrivals[0].k] + rest else rest
  {
  }

  /** What is handed over is the taken frames' payloads, unaltered and in order;
      damaged arrivals change neither the output nor the state. */
  lemma {:induction false} DeliveredIsTaken(cfg: Config, st: RxState, payloads: seq<seq<byte>>, arrivals: seq<Arrival>)
    requires ValidArrivals(cfg, payloads, arrivals)
    ensures forall i :: 0 <= i < |Taken(st, arrivals)| ==> Taken(st, arrivals)[i] < |payloads|
    ensures Delivered(cfg, st, payloads, arrivals) == Pick(payloads, Taken(st, arrivals))
    decreases |arrivals|
  {
    if arrivals != [] {
      var st', rest := Next(st, arrivals[0]), arrivals[1..];
      DeliveredUnfolds(cfg, st, payloads, arrivals);
      TakenUnfolds(st, arrivals);
      DeliveredIsTaken(cfg, st', payloads, rest);
      if Takes(st, arrivals[0]) {
        PickCons(payloads, arrivals[0].k, Taken(st', rest));
      }
    }
  }

  /** Consecutive numbers: no repeat, no hole, no inversion. */
  predicate Contiguous(ks: seq<nat>) {
    forall i :: 0 <= i < |ks| ==> ks[i] == ks[0] + i
  }

  /** How many frames from n on turn up, each after its predecessor. */
  function InStep(n: nat, arrivals: seq<Arrival>): nat
    decreases |arrivals|
  {
    if arrivals == [] then 0
    else if arrivals[0] == Intact(n) then 1 + InStep(n + 1, arrivals[1..])
    else InStep(n, arrivals[1..])
  }

  function Range(n: nat, m: nat): (ks: seq<nat>)
    ensures |ks| == m && forall i :: 0 <= i < m ==> ks[i] == n + i
    decreases m
  {
    if m == 0 then [] else [n] + Range(n + 1, m - 1)
  }

  lemma JudgedByNumber(n: nat, total: nat, a: Arrival)
    requires 1 <= n <= total < COUNTERS && (a.Intact? ==> a.k < total)
    ensures Takes(RxState(false, n - 1), a) <==> a == Intact(n)
    ensures Next(RxState(false, n - 1), a) == RxState(false, if a == Intact(n) then n else n - 1)
  {
  }

  /** Established at frame n - 1, the receiver takes frame n, n + 1, ... and nothing
      else: after a loss nothing is taken until the missing frame itself arrives. */
  lemma {:induction false} EstablishedTakes(n: nat, total: nat, arrivals: seq<Arrival>)
    requires 1 <= n <= total < COUNTERS
    requires forall i :: 0 <= i < |arrivals| && arrivals[i].Intact? ==> arrivals[i].k < total
    ensures Taken(RxState(false, n - 1), arrivals) == Range(n, InStep(n, arrivals))
    decreases |arrivals|
  {
    if arrivals != [] {
      JudgedByNumber(n, total, arrivals[0]);
      EstablishedTakes(if arrivals[0] == Intact(n) then n + 1 else n, total, arrivals[1..]);
    }
  }

  /** The first frame taken sets the run off, wherever it is. */
  lemma {:induction false} FreshTakesRun(total: nat, arrivals: seq<Arrival>) returns (k: nat, n: nat)
    requires total < COUNTERS
    requires forall i :: 0 <= i < |arrivals| && arrivals[i].Intact? ==> arrivals[i].k < total
    ensures Taken(FRESH, arrivals) == Range(k, n) && (n > 0 ==> k < total)
    decreases |arrivals|
  {
    if arrivals == [] {
      k, n := 0, 0;
    } else {
      TakenUnfolds(FRESH, arrivals);
      var rest := arrivals[1..];
      if arrivals[0].Intact? {
        k := arrivals[0].k;
        n := 1 + InStep(k + 1, rest);
        EstablishedTakes(k + 1, total, rest);
      } else {
        k, n := FreshTakesRun(total, rest);
      }
    }
  }

  /** With a full counter cycle in circulation, frame 0 passes for the successor of
      frame 2^32 - 1. */
  lemma CounterWrapReplays()
    ensures Taken(FRESH, [Intact(COUNTERS - 1), Intact(0)]) == [COUNTERS - 1, 0]
  {
    var arrivals := [Intact(COUNTERS - 1), Intact(0)];
    var st := RxState(false, COUNTERS - 1);
    assert arrivals[1..] == [Intact(0)] && arrivals[1..][1..] == [];
    assert Takes(FRESH, arrivals[0]) && Next(FRESH, arrivals[0]) == st;
    assert Takes(st, Intact(0));
    assert Taken(st, arrivals[1..]) == [0] + Taken(Next(st, Intact(0)), []);
  }

  lemma WrapIsNoRun()
    ensures !Contiguous(Taken(FRESH, [Intact(COUNTERS - 1), Intact(0)]))
  {
    CounterWrapReplays();
    var ks := Taken(FRESH, [Intact(COUNTERS - 1), Intact(0)]);
    assert ks[1] != ks[0] + 1;
  }

  lemma ArrivalsInRange(cfg: Config, payloads: seq<seq<byte>>, arrivals: seq<Arrival>)
    requires ValidArrivals(cfg, payloads, arrivals)
    ensures forall i :: 0 <= i < |arrivals| && arrivals[i].Intact? ==> arrivals[i].k < |payloads|
  {
    forall i | 0 <= i < |arrivals| && arrivals[i].Intact? ensures arrivals[i].k < |payloads| {
      assert ValidArrival(cfg, payloads, arrivals[i]);
    }
  }

  /** A receiver withstands loss, duplication, reordering and detectable damage, on
      every channel, exactly while fewer than 2^32 frames of its Protector are about. */
  lemma DeliversRunsExactly(cfg: Config, payloads: seq<seq<byte>>)
    ensures (forall arrivals :: ValidArrivals(cfg, payloads, arrivals) ==> Contiguous(Taken(FRESH, arrivals)))
       <==> |payloads| < COUNTERS
  {
    if |payloads| < COUNTERS {
      forall arrivals: seq<Arrival> | ValidArrivals(cfg, payloads, arrivals)
        ensures Contiguous(Taken(FRESH, arrivals))
      {
        ArrivalsInRange(cfg, payloads, arrivals);
        var k, n := FreshTakesRun(|payloads|, arrivals);
      }
    } else {
      WrapIsNoRun();
      var arrivals := [Intact(COUNTERS - 1), Intact(0)];
      assert ValidArrivals(cfg, payloads, arrivals);
    }
  }

  /** What unwrap handed over is a stretch of what was protected. */
  ghost predicate IsStretch(delivered: seq<seq<byte>>, payloads: seq<seq<byte>>) {
    exists k: nat :: StretchAt(delivered, payloads, k)
  }

  predicate StretchAt(delivered: seq<seq<byte>>, payloads: seq<seq<byte>>, k: nat) {
    k + |delivered| <= |payloads| && delivered == payloads[k..k + |delivered|]
  }

  lemma PickRange(payloads: seq<seq<byte>>, k: nat, n: nat)
    requires forall i :: 0 <= i < |Range(k, n)| ==> Range(k, n)[i] < |payloads|
    requires n > 0
    ensures k + n <= |payloads| && Pick(payloads, Range(k, n)) == payloads[k..k + n]
  {
    assert Range(k, n)[n - 1] == k + n - 1;
  }

  /** So, of fewer than 2^32 protected payloads, unwrap delivers a contiguous, in-order,
      repeat-free stretch, whatever the channel does. */
  lemma DeliversStretch(cfg: Config, payloads: seq<seq<byte>>, arrivals: seq<Arrival>)
    requires |payloads| < COUNTERS && ValidArrivals(cfg, payloads, arrivals)
    ensures IsStretch(Delivered(cfg, FRESH, payloads, arrivals), payloads)
  {
    ArrivalsInRange(cfg, payloads, arrivals);
    DeliveredIsTaken(cfg, FRESH, payloads, arrivals);
    var k, n := FreshTakesRun(|payloads|, arrivals);
    if n > 0 {
      PickRange(payloads, k, n);
      assert StretchAt(Delivered(cfg, FRESH, payloads, arrivals), payloads, k);
    } else {
      assert StretchAt(Delivered(cfg, FRESH, payloads, arrivals), payloads, 0);
    }
  }

  /** Payloads that can be told apart at the wrap: only the first is not empty. */
  function Marked(n: nat): (payloads: seq<seq<byte>>)
    requires n > 0
    ensures |payloads| == n && payloads[0] == [1] && forall i :: 0 < i < n ==> payloads[i] == []
  {
    [[1]] + seq(n - 1, _ => [])
  }

  /** A channel across the wrap does not deliver a stretch of them. */
  lemma WrapBreaksStretch(cfg: Config, n: nat, arrivals: seq<Arrival>)
    requires n >= COUNTERS && ValidArrivals(cfg, Marked(n), arrivals)
    requires Taken(FRESH, arrivals) == [COUNTERS - 1, 0]
    ensures !IsStretch(Delivered(cfg, FRESH, Marked(n), arrivals), Marked(n))
  {
    var payloads := Marked(n);
    DeliveredIsTaken(cfg, FRESH, payloads, arrivals);
    var d := Delivered(cfg, FRESH, payloads, arrivals);
    assert d == [payloads[COUNTERS - 1], payloads[0]];
    forall k: nat ensures !StretchAt(d, payloads, k) {
      if k + 2 <= n {
        assert payloads[k..k + 2][1] == payloads[k + 1];
      }
    }
  }

  /** The number of payloads decides: n of them are always delivered as a stretch, over
      every channel and whatever they hold, if and only if n < 2^32. */
  lemma DeliversStretchesExactly(cfg: Config, n: nat)
    ensures (forall payloads, arrivals :: |payloads| == n && ValidArrivals(cfg, payloads, arrivals) ==>
               IsStretch(Delivered(cfg, FRESH, payloads, arrivals), payloads))
       <==> n < COUNTERS
  {
    if n < COUNTERS {
      forall payloads, arrivals | |payloads| == n && ValidArrivals(cfg, payloads, arrivals)
        ensures IsStretch(Delivered(cfg, FRESH, payloads, arrivals), payloads)
      {
        DeliversStretch(cfg, payloads, arrivals);
      }
    } else {
      var arrivals := [Intact(COUNTERS - 1), Intact(0)];
      assert ValidArrivals(cfg, Marked(n), arrivals);
      CounterWrapReplays();
      WrapBreaksStretch(cfg, n, arrivals);
    }
  }
}
