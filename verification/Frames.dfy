/** The CAN frame and its structural rules (src/can.cpp, include/can/can.hpp). */
module Frames {
  import opened Bytes
  import opened BitMath

  const MAX_DATA_LEN: nat := 8
  const FD_MAX_DATA_LEN: nat := 64
  const XL_MAX_DATA_LEN: nat := 2048
  const MAX_STD_ID: uint32 := 0x7FF
  const MAX_EXT_ID: uint32 := 0x1FFF_FFFF

  datatype Frame = Frame(
    id: uint32, ext: bool, rtr: bool, fd: bool, brs: bool, data: seq<byte>,
    esi: bool, xl: bool, sdt: byte, vcid: byte, af: uint32, sec: bool)

  predicate IsCanonicalFdLen(len: nat) {
    len <= 8 || len in {12, 16, 20, 24, 32, 48, 64}
  }

  /** validate_frame throws exactly on the other frames. */
  predicate ValidFrame(f: Frame) {
    && !(f.fd && f.xl)
    && (if f.xl then
          && !f.ext && !f.rtr && !f.brs
          && f.id <= MAX_STD_ID
          && 1 <= |f.data| <= XL_MAX_DATA_LEN
        else
          && (f.ext ==> f.id <= MAX_EXT_ID)
          && (!f.ext ==> f.id <= MAX_STD_ID)
          && !(f.rtr && f.fd)
          && (f.rtr ==> f.data == [])
          && (!f.fd ==> |f.data| <= MAX_DATA_LEN)
          && (f.fd ==> |f.data| <= FD_MAX_DATA_LEN && IsCanonicalFdLen(|f.data|))
          && (f.brs ==> f.fd)
          && (f.esi ==> f.fd))
  }

  /** Why validate_frame throws, in the order it looks. */
  datatype FrameFault =
    | FdAndXl | XlExtended | XlRemote | XlSwitched | XlPriority | XlLength | ExtendedId | StandardId
    | RemoteFd | RemoteData | DataTooLong | FdTooLong | FdLength | SwitchedNoFd | ErrorStateNoFd

  function Rank(r: FrameFault): nat {
    match r
    case FdAndXl => 0 case XlExtended => 1 case XlRemote => 2 case XlSwitched => 3 case XlPriority => 4
    case XlLength => 5 case ExtendedId => 6 case StandardId => 7 case RemoteFd => 8 case RemoteData => 9
    case DataTooLong => 10 case FdTooLong => 11 case FdLength => 12 case SwitchedNoFd => 13 case ErrorStateNoFd => 14
  }

  /** The rule each fault names, broken. */
  predicate Breaks(f: Frame, r: FrameFault) {
    var n := |f.data|;
    match r
    case FdAndXl => f.fd && f.xl
    case XlExtended => f.xl && f.ext
    case XlRemote => f.xl && f.rtr
    case XlSwitched => f.xl && f.brs
    case XlPriority => f.xl && f.id > 0x7FF
    case XlLength => f.xl && (n < 1 || n > 2048)
    case ExtendedId => !f.xl && f.ext && f.id > 0x1FFF_FFFF
    case StandardId => !f.xl && !f.ext && f.id > 0x7FF
    case RemoteFd => !f.xl && f.rtr && f.fd
    case RemoteData => !f.xl && f.rtr && n > 0
    case DataTooLong => !f.xl && !f.fd && n > 8
    case FdTooLong => !f.xl && f.fd && n > 64
    case FdLength => !f.xl && f.fd && n !in {0, 1, 2, 3, 4, 5, 6, 7, 8, 12, 16, 20, 24, 32, 48, 64}
    case SwitchedNoFd => !f.xl && f.brs && !f.fd
    case ErrorStateNoFd => !f.xl && f.esi && !f.fd
  }

  lemma ValidBreaksNothing(f: Frame)
    ensures ValidFrame(f) <==> forall r: FrameFault :: !Breaks(f, r)
  {
    if forall r: FrameFault :: !Breaks(f, r) {
      assert !Breaks(f, FdAndXl);
      assert !Breaks(f, XlExtended) && !Breaks(f, XlRemote) && !Breaks(f, XlSwitched);
      assert !Breaks(f, XlPriority) && !Breaks(f, XlLength);
      assert !Breaks(f, ExtendedId) && !Breaks(f, StandardId);
      assert !Breaks(f, RemoteFd) && !Breaks(f, RemoteData);
      assert !Breaks(f, DataTooLong) && !Breaks(f, FdTooLong) && !Breaks(f, FdLength);
      assert !Breaks(f, SwitchedNoFd) && !Breaks(f, ErrorStateNoFd);
    }
  }

  /** validate_frame: the first rule the frame breaks, in the order of the faults, or none. */
  method Validate(f: Frame) returns (fault: Option<FrameFault>)
    ensures fault.None? <==> ValidFrame(f)
    ensures fault.None? ==> forall r: FrameFault :: !Breaks(f, r)
    ensures fault.Some? ==>
      Breaks(f, fault.value) && forall r: FrameFault :: Rank(r) < Rank(fault.value) ==> !Breaks(f, r)
  {
    if f.fd && f.xl { return Some(FdAndXl); }
    if f.xl {
      if f.ext { return Some(XlExtended); }
      if f.rtr { return Some(XlRemote); }
      if f.brs { return Some(XlSwitched); }
      if f.id > MAX_STD_ID { return Some(XlPriority); }
      if |f.data| == 0 || |f.data| > XL_MAX_DATA_LEN { return Some(XlLength); }
    } else {
      if f.ext && f.id > MAX_EXT_ID { return Some(ExtendedId); }
      if !f.ext && f.id > MAX_STD_ID { return Some(StandardId); }
      if f.rtr && f.fd { return Some(RemoteFd); }
      if f.rtr && |f.data| != 0 { return Some(RemoteData); }
      if !f.fd && |f.data| > MAX_DATA_LEN { return Some(DataTooLong); }
      if f.fd && |f.data| > FD_MAX_DATA_LEN { return Some(FdTooLong); }
      if f.fd && !IsCanonicalFdLen(|f.data|) { return Some(FdLength); }
      if f.brs && !f.fd { return Some(SwitchedNoFd); }
      if f.esi && !f.fd { return Some(ErrorStateNoFd); }
    }
    return None;
  }

  /** Bitwise and. */
  function And(a: nat, b: nat): nat {
    if a == 0 || b == 0 then 0
    else (if a % 2 == 1 && b % 2 == 1 then 1 else 0) + 2 * And(a / 2, b / 2)
  }

  /** Bit i of the and is 1 exactly where it is 1 in both. */
  lemma {:induction false} AndBit(a: nat, b: nat, i: nat)
    ensures BitAt(And(a, b), i) <==> BitAt(a, i) && BitAt(b, i)
    decreases i
  {
    AndHalves(a, b);
    if i == 0 {
      BitZero(a);
      BitZero(b);
      BitZero(And(a, b));
    } else {
      BitNext(a, i - 1);
      BitNext(b, i - 1);
      BitNext(And(a, b), i - 1);
      AndBit(a / 2, b / 2, i - 1);
    }
  }

  lemma AndHalves(a: nat, b: nat)
    ensures And(a, b) / 2 == And(a / 2, b / 2)
    ensures And(a, b) % 2 == 1 <==> a % 2 == 1 && b % 2 == 1
  {
    var q := And(a / 2, b / 2);
    assert And(a, b) == (if a % 2 == 1 && b % 2 == 1 then 1 else 0) + 2 * q;
  }

  datatype Filter = Filter(id: uint32, mask: uint32)

  predicate Matches(fl: Filter, f: Frame) { And(f.id, fl.mask) == And(fl.id, fl.mask) }

  /** The frame's identifier has the filter's bit wherever the mask has a 1. */
  ghost predicate AgreesWhereMasked(fl: Filter, f: Frame) {
    forall i: nat :: BitAt(fl.mask, i) ==> BitAt(f.id, i) == BitAt(fl.id, i)
  }

  /** What a filter lets through. */
  lemma MatchesBits(fl: Filter, f: Frame)
    ensures Matches(fl, f) <==> AgreesWhereMasked(fl, f)
  {
    if Matches(fl, f) {
      forall i: nat | BitAt(fl.mask, i) ensures BitAt(f.id, i) == BitAt(fl.id, i) {
        AndBit(f.id, fl.mask, i);
        AndBit(fl.id, fl.mask, i);
      }
    }
    if AgreesWhereMasked(fl, f) {
      forall i: nat ensures BitAt(And(f.id, fl.mask), i) == BitAt(And(fl.id, fl.mask), i) {
        AndBit(f.id, fl.mask, i);
        AndBit(fl.id, fl.mask, i);
      }
      SameBits(And(f.id, fl.mask), And(fl.id, fl.mask));
    }
  }

  lemma {:induction false} AndOnes(a: nat, k: nat)
    requires a < Pow2(k)
    ensures And(a, Pow2(k) - 1) == a
    decreases k
  {
    if a > 0 {
      assert (Pow2(k) - 1) / 2 == Pow2(k - 1) - 1 && (Pow2(k) - 1) % 2 == 1;
      AndOnes(a / 2, k - 1);
    }
  }

  lemma Pow2Eleven()
    ensures Pow2(11) == 0x800
  {
    assert Pow2(4) == 16;
    assert Pow2(8) == 256;
  }

  /** A zero mask lets every frame through, a mask of eleven ones exactly the one identifier
      among those of eleven bits. */
  lemma MasksAtTheEnds(id: uint32, f: Frame)
    ensures Matches(Filter(id, 0), f)
    ensures id <= 0x7FF && f.id <= 0x7FF ==> (Matches(Filter(id, 0x7FF), f) <==> f.id == id)
  {
    Pow2Eleven();
    if id <= 0x7FF && f.id <= 0x7FF {
      AndOnes(id, 11);
      AndOnes(f.id, 11);
    }
  }

  predicate MatchesAny(filters: seq<Filter>, f: Frame) {
    filters == [] || exists i :: 0 <= i < |filters| && Matches(filters[i], f)
  }

  /** matches_any: no filter at all lets every frame through. */
  method CheckFilters(filters: seq<Filter>, f: Frame) returns (any: bool)
    ensures any == MatchesAny(filters, f)
    ensures any <==> filters == [] || exists j :: 0 <= j < |filters| && AgreesWhereMasked(filters[j], f)
  {
    forall j | 0 <= j < |filters| ensures Matches(filters[j], f) <==> AgreesWhereMasked(filters[j], f) {
      MatchesBits(filters[j], f);
    }
    if filters == [] {
      return true;
    }
    var i := 0;
    while i < |filters|
      invariant i <= |filters|
      invariant forall j :: 0 <= j < i ==> !Matches(filters[j], f)
    {
      if Matches(filters[i], f) {
        return true;
      }
      i := i + 1;
    }
    return false;
  }
}
