/** SAE J1939 identifiers and single-frame messages (src/j1939/pgn.cpp). */
module J1939 {
  import opened Bytes
  import opened Division

  const BROADCAST: byte := 0xFF

  /** A CAN frame as the J1939 layer sees it. */
  datatype CanFrame = CanFrame(id: uint32, ext: bool, data: seq<byte>)

  datatype Message = Message(priority: byte, pgn: uint32, src: byte, dst: byte, data: seq<byte>)

  datatype DecodedId = DecodedId(priority: byte, pgn: uint32, src: byte)

  function Pf(pgn: uint32): byte { pgn / 0x100 % 0x100 }

  predicate IsPeerToPeer(pgn: uint32) { Pf(pgn) < 240 }

  function DecodeId(id: uint32): DecodedId {
    var pf, ps, dp := id / 0x1_0000 % 0x100, id / 0x100 % 0x100, id / 0x100_0000 % 2;
    DecodedId(id / 0x400_0000 % 8,
              dp * 0x1_0000 + pf * 0x100 + (if pf < 240 then 0 else ps),
              id % 0x100)
  }

  /** The fields are disjoint bit ranges, so or-ing them together is adding them. */
  function EncodeId(priority: byte, pgn: uint32, src: byte): (id: uint32)
    ensures id < 0x2000_0000
  {
    var pf, ps, dp := pgn / 0x100 % 0x100, pgn % 0x100, pgn / 0x1_0000 % 2;
    priority % 8 * 0x400_0000 + dp * 0x100_0000 + pf * 0x1_0000 + (if pf >= 240 then ps * 0x100 else 0) + src
  }

  /** EncodeId with the destination or-ed into the PDU-specific octet, which EncodeId
      leaves clear for a peer-to-peer group. */
  function AddressedId(priority: byte, pgn: uint32, src: byte, dst: byte): uint32
    requires IsPeerToPeer(pgn)
  {
    EncodeId(priority, pgn, src) + dst * 0x100
  }

  /** The octets of an identifier are read back whole. */
  lemma IdFields(priority: byte, dp: nat, pf: byte, ps: byte, src: byte)
    requires dp < 2
    ensures var id := priority % 8 * 0x400_0000 + dp * 0x100_0000 + pf * 0x1_0000 + ps * 0x100 + src;
      && id / 0x400_0000 % 8 == priority % 8 && id / 0x100_0000 % 2 == dp
      && id / 0x1_0000 % 0x100 == pf && id / 0x100 % 0x100 == ps && id % 0x100 == src
  {
    var p: int, d: int, f: int, s: int := priority % 8, dp, pf, ps;
    var id := p * 0x400_0000 + d * 0x100_0000 + f * 0x1_0000 + s * 0x100 + src;
    assert id / 0x100 == p * 0x4_0000 + d * 0x1_0000 + f * 0x100 + s;
    assert id / 0x1_0000 == p * 0x400 + d * 0x100 + f;
    assert id / 0x100_0000 == p * 4 + d;
    assert id / 0x400_0000 == p;
  }

  /** An identifier by its fields, J1939-21 section 5.2: three bits of priority, the data page,
      the PDU format and the PDU-specific octet, and the source. */
  function Identifier(priority: nat, dp: nat, pf: nat, ps: nat, src: nat): nat {
    67108864 * priority + 16777216 * dp + 65536 * pf + 256 * ps + src
  }

  /** decode_id reads those fields; the specific octet belongs to the group from format 240 on.
      The bit between priority and data page is passed over. */
  lemma DecodeLayout(priority: nat, reserved: nat, dp: nat, pf: byte, ps: byte, src: byte)
    requires priority < 8 && reserved < 2 && dp < 2
    ensures DecodeId(Identifier(priority, dp, pf, ps, src) + 33554432 * reserved)
         == DecodedId(priority, 65536 * dp + 256 * pf + (if pf >= 240 then ps else 0), src)
  {
    var d := 2 * reserved + dp;
    var id: nat := Identifier(priority, dp, pf, ps, src) + 33554432 * reserved;
    Fields(id, priority, d, pf, ps, src);
    Split(d, 2, reserved, dp);
  }

  lemma Fields(id: nat, p: nat, d: nat, f: byte, s: byte, src: byte)
    requires p < 8 && d < 4 && id == p * 0x400_0000 + d * 0x100_0000 + f * 0x1_0000 + s * 0x100 + src
    ensures id % 0x100 == src && id / 0x100 % 0x100 == s && id / 0x1_0000 % 0x100 == f
    ensures id / 0x100_0000 % 2 == d % 2 && id / 0x400_0000 % 8 == p
  {
    var top := p * 4 + d;
    Split(id, 0x100, top * 0x1_0000 + f * 0x100 + s, src);
    Split(id / 0x100, 0x100, top * 0x100 + f, s);
    Split(id, 0x1_0000, top * 0x100 + f, s * 0x100 + src);
    Split(id / 0x1_0000, 0x100, top, f);
    Split(id, 0x100_0000, top, f * 0x1_0000 + s * 0x100 + src);
    Split(id, 0x400_0000, p, d * 0x100_0000 + f * 0x1_0000 + s * 0x100 + src);
  }

  /** encode_id writes them, and or-ing in a destination fills the octet it left clear. */
  lemma EncodeLayout(priority: byte, dp: nat, pf: byte, ps: byte, src: byte, dst: byte)
    requires dp < 2
    ensures var pgn := 65536 * dp + 256 * pf + ps;
      && EncodeId(priority, pgn, src) == Identifier(priority % 8, dp, pf, if pf >= 240 then ps else 0, src)
      && (pf < 240 ==>
            IsPeerToPeer(pgn) && AddressedId(priority, pgn, src, dst) == Identifier(priority % 8, dp, pf, dst, src))
  {
    var f: int, s: int := pf, ps;
    var pgn := 65536 * dp + 256 * f + s;
    Split(pgn, 0x100, 256 * dp + f, s);
    Split(pgn / 0x100, 0x100, dp, f);
    Split(pgn, 0x1_0000, dp, 256 * f + s);
    SmallModulus(dp, 2);
  }

  /** What survives an identifier: 3 bits of priority, the source, and of the group 17
      bits, less the low octet of a peer-to-peer group. */
  function CarriedPgn(pgn: uint32): uint32 {
    pgn / 0x1_0000 % 2 * 0x1_0000 + pgn / 0x100 % 0x100 * 0x100 + (if IsPeerToPeer(pgn) then 0 else pgn % 0x100)
  }

  lemma DecodesEncoded(priority: byte, pgn: uint32, src: byte)
    ensures DecodeId(EncodeId(priority, pgn, src)) == DecodedId(priority % 8, CarriedPgn(pgn), src)
  {
    var pf, dp := pgn / 0x100 % 0x100, pgn / 0x1_0000 % 2;
    IdFields(priority, dp, pf, if pf >= 240 then pgn % 0x100 else 0, src);
    PgnParts(pgn);
  }

  lemma PgnParts(pgn: uint32)
    ensures pgn % 0x2_0000 == pgn / 0x1_0000 % 2 * 0x1_0000 + pgn / 0x100 % 0x100 * 0x100 + pgn % 0x100
  {
    var a, b := pgn / 0x100, pgn / 0x1_0000;
    assert a == 0x100 * b + a % 0x100;
  }

  /** A group number comes back exactly when it has 17 bits and, peer-to-peer, a clear
      low octet. */
  lemma PgnSurvivesExactly(priority: byte, pgn: uint32, src: byte)
    ensures DecodeId(EncodeId(priority, pgn, src)).pgn == pgn
       <==> pgn < 0x2_0000 && (IsPeerToPeer(pgn) ==> pgn % 0x100 == 0)
  {
    DecodesEncoded(priority, pgn, src);
    CarriedExactly(pgn);
  }

  lemma CarriedExactly(pgn: uint32)
    ensures CarriedPgn(pgn) == pgn <==> pgn < 0x2_0000 && (IsPeerToPeer(pgn) ==> pgn % 0x100 == 0)
  {
    PgnParts(pgn);
    var low: int, high: int := pgn % 0x100, pgn % 0x2_0000;
    assert CarriedPgn(pgn) == high - if IsPeerToPeer(pgn) then low else 0;
  }

  /** A destination octet does not disturb the other fields. */
  lemma DecodesAddressed(priority: byte, pgn: uint32, src: byte, dst: byte)
    requires IsPeerToPeer(pgn)
    ensures var id := AddressedId(priority, pgn, src, dst);
      && DecodeId(id) == DecodedId(priority % 8, CarriedPgn(pgn), src)
      && id / 0x100 % 0x100 == dst
  {
    IdFields(priority, pgn / 0x1_0000 % 2, pgn / 0x100 % 0x100, dst, src);
    PgnParts(pgn);
  }

  // ---------------------------------------------------------------- single frames

  predicate MatchesPgns(pgn: uint32, filter: seq<uint32>) {
    filter == [] || pgn in filter
  }

  /** matches_pgns, as it loops. */
  method CheckPgns(pgn: uint32, filter: seq<uint32>) returns (any: bool)
    ensures any == MatchesPgns(pgn, filter)
  {
    if filter == [] {
      return true;
    }
    for i := 0 to |filter|
      invariant pgn !in filter[..i]
    {
      if filter[i] == pgn {
        return true;
      }
    }
    return false;
  }

  /** Bus::send for at most 8 octets. */
  function SingleFrame(m: Message, src: byte): CanFrame
    requires |m.data| <= 8
  {
    CanFrame(if IsPeerToPeer(m.pgn)
             then AddressedId(m.priority, m.pgn, src, m.dst) else EncodeId(m.priority, m.pgn, src),
             true, m.data)
  }

  /** One turn of the thread behind Bus::subscribe. */
  function Received(cf: CanFrame, filter: seq<uint32>): Option<Message> {
    if !cf.ext then None
    else
      var id := DecodeId(cf.id);
      if !MatchesPgns(id.pgn, filter) then None
      else Some(Message(id.priority, id.pgn, id.src,
                        if IsPeerToPeer(id.pgn) then cf.id / 0x100 % 0x100 else BROADCAST, cf.data))
  }

  /** What goes out for at most 8 octets, by numbers. */
  predicate IsSingleFrame(cf: CanFrame, m: Message, src: byte) {
    var dp, pf, ps := m.pgn / 65536 % 2, m.pgn / 256 % 256, m.pgn % 256;
    && cf.ext && cf.data == m.data
    && cf.id == Identifier(m.priority % 8, dp, pf, if pf < 240 then m.dst else ps, src)
  }

  lemma SingleFrameOctets(m: Message, src: byte)
    requires |m.data| <= 8
    ensures IsSingleFrame(SingleFrame(m, src), m, src)
  {
  }

  /** What a subscriber makes of any frame: nothing of a standard one or of a group it has not
      asked for, otherwise the fields of the identifier, the specific octet as destination below
      format 240. */
  lemma ReceivedIs(
    cf: CanFrame, filter: seq<uint32>, priority: nat, reserved: nat, dp: nat, pf: byte, ps: byte, src: byte)
    requires priority < 8 && reserved < 2 && dp < 2
    requires cf.id == Identifier(priority, dp, pf, ps, src) + 33554432 * reserved
    ensures var pgn := 65536 * dp + 256 * pf + (if pf >= 240 then ps else 0);
      Received(cf, filter)
        == if !cf.ext || (filter != [] && pgn !in filter) then None
           else Some(Message(priority, pgn, src, if pf < 240 then ps else 255, cf.data))
  {
    DecodeLayout(priority, reserved, dp, pf, ps, src);
    Fields(cf.id, priority, 2 * reserved + dp, pf, ps, src);
    FormatOf(dp, pf, if pf >= 240 then ps else 0);
  }

  lemma FormatOf(dp: nat, pf: byte, low: byte)
    requires dp < 2
    ensures Pf(65536 * dp + 256 * pf + low) == pf
  {
    Split(65536 * dp + 256 * pf + low, 0x100, 256 * dp + pf, low);
    Split(256 * dp + pf, 0x100, dp, pf);
  }

  /** A short message crosses the bus with its data, and, if its group number fits,
      its group; a broadcast group loses its destination. */
  lemma SingleFrameCrosses(m: Message, src: byte, filter: seq<uint32>)
    requires |m.data| <= 8
    ensures Received(SingleFrame(m, src), filter) ==
      if !MatchesPgns(CarriedPgn(m.pgn), filter) then None
      else Some(Message(m.priority % 8, CarriedPgn(m.pgn), src,
                        if IsPeerToPeer(m.pgn) then m.dst else BROADCAST, m.data))
  {
    DecodesEncoded(m.priority, m.pgn, src);
    if IsPeerToPeer(m.pgn) {
      DecodesAddressed(m.priority, m.pgn, src, m.dst);
    }
    CarriedKeepsPf(m.pgn);
  }

  lemma CarriedKeepsPf(pgn: uint32)
    ensures Pf(CarriedPgn(pgn)) == Pf(pgn)
  {
    PgnParts(pgn);
    var d: int, f: int, s: int := pgn / 0x1_0000 % 2, pgn / 0x100 % 0x100, if IsPeerToPeer(pgn) then 0 else pgn % 0x100;
    assert CarriedPgn(pgn) == d * 0x1_0000 + f * 0x100 + s;
    assert (d * 0x1_0000 + f * 0x100 + s) / 0x100 == d * 0x100 + f;
  }
}
