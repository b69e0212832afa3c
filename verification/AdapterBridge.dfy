/** The bridge thread of CanAdapter (src/can.cpp): frames from the bus, numbered and passed
    on as messages under a back-pressure policy. */
module AdapterBridge {
  import opened Bytes
  import opened Division
  import opened Frames
  import opened Channel
  import opened MessageJson
  import opened FrameBridge
  import VirtualBus

  /** The sequence counter is an atomic uint64_t. */
  function Next(n: uint64): uint64 { if n + 1 < 0x1_0000_0000_0000_0000 then n + 1 else 0 }

  ghost predicate IsBridged(m: Message, f: Frame, number: uint64) {
    IsMessageOf(m, f) && m.number == number
  }

  /** What others may do to the bridge's two channels: the bus delivers a frame (under the
      default policy, DropNewest) or closes; a receiver takes from the output or closes it. */
  datatype Move = Arrives(f: Frame) | UpstreamCloses | OutputTaken | OutputCloses

  /** The items a channel has taken in since it had accepted before. */
  function Since<T>(before: seq<T>, now: seq<T>): seq<T>
    requires before <= now
  {
    now[|before|..]
  }

  /** What was buffered and what has come in since is what was taken and what is buffered. */
  ghost predicate Accounted<T>(buf0: seq<T>, accepted0: seq<T>, accepted: seq<T>, taken: seq<T>, buf: seq<T>) {
    accepted0 <= accepted && buf0 + Since(accepted0, accepted) == taken + buf
  }

  lemma AccountedNext<T>(
    buf0: seq<T>, accepted0: seq<T>, accepted: seq<T>, taken: seq<T>, buf: seq<T>,
    accepted': seq<T>, more: seq<T>, buf': seq<T>)
    requires Accounted(buf0, accepted0, accepted, taken, buf) && Accounted(buf, accepted, accepted', more, buf')
    ensures Accounted(buf0, accepted0, accepted', taken + more, buf')
  {
    var first, second := Since(accepted0, accepted), Since(accepted, accepted');
    calc {
      buf0 + Since(accepted0, accepted');
    == { assert Since(accepted0, accepted') == first + second; }
      buf0 + (first + second);
    ==
      (buf0 + first) + second;
    ==
      (taken + buf) + second;
    ==
      taken + (buf + second);
    ==
      taken + (more + buf');
    ==
      (taken + more) + buf';
    }
  }

  lemma AccountedNow<T>(buf: seq<T>, accepted: seq<T>)
    ensures Accounted(buf, accepted, accepted, [], buf)
  {
    assert buf + Since(accepted, accepted) == buf == [] + buf;
  }

  lemma AccountedHead<T>(buf0: seq<T>, accepted0: seq<T>, accepted: seq<T>, buf: seq<T>)
    requires Accounted(buf0, accepted0, accepted, [], buf) && buf != []
    ensures Accounted(buf0, accepted0, accepted, [buf[0]], buf[1..])
  {
    assert [buf[0]] + buf[1..] == buf;
  }

  /** The output is open unless it was closed or somebody closes it. */
  predicate ClosedBy(before: bool, now: bool, moves: seq<Move>) {
    (before ==> now) && (now ==> before || OutputCloses in moves)
  }

  class CanAdapter {
    var lastNumber: uint64

    constructor ()
      ensures lastNumber == 0
    {
      lastNumber := 0;
    }

    static method OtherMove(frames: Chan<Frame>, out: Chan<Message>, move: Move)
      requires frames.Valid() && out.Valid() && (frames as object) != (out as object)
      modifies frames, out
      ensures frames.Valid() && out.Valid() && out.accepted == old(out.accepted)
      ensures Accounted(old(frames.buf), old(frames.accepted), frames.accepted, [], frames.buf)
      ensures |frames.buf| <= |old(frames.buf)| + 1 && |out.buf| <= |old(out.buf)|
      ensures ClosedBy(old(out.closed), out.closed, [move])
    {
      match move
      case Arrives(f) => var r := frames.TrySend(f);
      case UpstreamCloses => frames.Close();
      case OutputTaken => var taken := out.Take();
      case OutputCloses => out.Close();
    }

    /** recv, others making any number of their moves from the n-th on first and as many more
        as it waits for; when they make no more, the bus closes. */
    static method Recv(frames: Chan<Frame>, out: Chan<Message>, others: seq<Move>, n: nat)
      returns (f: Option<Frame>, n': nat)
      requires frames.Valid() && out.Valid() && (frames as object) != (out as object) && n <= |others|
      modifies frames, out
      ensures frames.Valid() && out.Valid() && out.accepted == old(out.accepted) && n <= n' <= |others|
      ensures Accounted(old(frames.buf), old(frames.accepted), frames.accepted,
        if f.Some? then [f.value] else [], frames.buf)
      ensures f.None? ==> frames.buf == [] && frames.closed
      ensures |frames.buf| + (if f.Some? then 1 else 0) <= |old(frames.buf)| + (n' - n)
      ensures ClosedBy(old(out.closed), out.closed, others)
    {
      var first :| n <= first <= |others|;
      n' := n;
      AccountedNow(frames.buf, frames.accepted);
      while n' < first || (frames.buf == [] && !frames.closed)
        invariant n <= n' <= |others| && frames.Valid() && out.Valid() && out.accepted == old(out.accepted)
        invariant Accounted(old(frames.buf), old(frames.accepted), frames.accepted, [], frames.buf)
        invariant |frames.buf| <= |old(frames.buf)| + (n' - n)
        invariant ClosedBy(old(out.closed), out.closed, others)
        decreases |others| - n', !frames.closed
      {
        if n' == |others| {
          frames.Close();
        } else {
          ghost var accepted, buf := frames.accepted, frames.buf;
          OtherMove(frames, out, others[n']);
          AccountedNext(old(frames.buf), old(frames.accepted), accepted, [], buf, frames.accepted, [], frames.buf);
          n' := n' + 1;
        }
      }
      if frames.buf != [] {
        AccountedHead(old(frames.buf), old(frames.accepted), frames.accepted, frames.buf);
      }
      f := frames.Take();
    }

    /** The same in the middle of a loop that has taken some frames already. */
    static method RecvNext(
      frames: Chan<Frame>, out: Chan<Message>, others: seq<Move>, n: nat,
      ghost buf0: seq<Frame>, ghost accepted0: seq<Frame>, ghost taken: seq<Frame>)
      returns (f: Option<Frame>, n': nat)
      requires frames.Valid() && out.Valid() && (frames as object) != (out as object) && n <= |others|
      requires Accounted(buf0, accepted0, frames.accepted, taken, frames.buf)
      modifies frames, out
      ensures frames.Valid() && out.Valid() && out.accepted == old(out.accepted) && n <= n' <= |others|
      ensures f.Some? ==> Accounted(buf0, accepted0, frames.accepted, taken + [f.value], frames.buf)
      ensures f.Some? ==> |frames.buf| < |old(frames.buf)| + (n' - n)
      ensures f.None? ==> frames.closed && frames.buf == [] && Accounted(buf0, accepted0, frames.accepted, taken, [])
      ensures ClosedBy(old(out.closed), out.closed, others)
    {
      ghost var accepted, buf := frames.accepted, frames.buf;
      f, n' := Recv(frames, out, others, n);
      AccountedNext(buf0, accepted0, accepted, taken, buf, frames.accepted,
                    if f.Some? then [f.value] else [], frames.buf);
      assert taken + [] == taken;
    }

    /** Others making any number of their moves, and if send waits as many more as it waits for
        room in the output or for its closing; when they make no more, receivers take. */
    static method AwaitSend(frames: Chan<Frame>, out: Chan<Message>, others: seq<Move>, n: nat, waits: bool)
      returns (n': nat)
      requires frames.Valid() && out.Valid() && (frames as object) != (out as object) && n <= |others|
      modifies frames, out
      ensures frames.Valid() && out.Valid() && out.accepted == old(out.accepted) && n <= n' <= |others|
      ensures Accounted(old(frames.buf), old(frames.accepted), frames.accepted, [], frames.buf)
      ensures |frames.buf| <= |old(frames.buf)| + (n' - n) && |out.buf| <= |old(out.buf)|
      ensures ClosedBy(old(out.closed), out.closed, others)
      ensures waits ==> out.closed || |out.buf| < out.capacity
    {
      var first :| n <= first <= |others|;
      n' := n;
      AccountedNow(frames.buf, frames.accepted);
      while n' < first || (waits && !out.closed && |out.buf| >= out.capacity)
        invariant n <= n' <= |others| && frames.Valid() && out.Valid() && out.accepted == old(out.accepted)
        invariant Accounted(old(frames.buf), old(frames.accepted), frames.accepted, [], frames.buf)
        invariant |frames.buf| <= |old(frames.buf)| + (n' - n) && |out.buf| <= |old(out.buf)|
        invariant ClosedBy(old(out.closed), out.closed, others)
        decreases |others| - n', |out.buf|
      {
        if n' == |others| {
          var taken := out.Take();
        } else {
          ghost var accepted, buf := frames.accepted, frames.buf;
          OtherMove(frames, out, others[n']);
          AccountedNext(old(frames.buf), old(frames.accepted), accepted, [], buf, frames.accepted, [], frames.buf);
          n' := n' + 1;
        }
      }
    }

    /** The policy's way with a message, from where a wait has ended. */
    static method Put(m: Message, out: Chan<Message>, policy: VirtualBus.Policy)
      requires out.Valid() && (policy == VirtualBus.Block ==> out.closed || |out.buf| < out.capacity)
      modifies out
      ensures out.Valid() && out.closed == old(out.closed)
      ensures out.accepted == old(out.accepted)
        + (if out.closed || (policy == VirtualBus.DropNewest && |old(out.buf)| >= out.capacity) then [] else [m])
    {
      match policy
      case DropNewest => var r := out.TrySend(m);
      case DropOldest => var sent := out.SendDropOldest(m);
      case Block => var sent := out.Send(m);
    }

    /** One frame on: the next number, and the policy's way with the message. Under Block the
        bridge waits for room, and whoever closes the output meanwhile ends the wait with
        nothing sent. */
    method Pass(
      f: Frame, frames: Chan<Frame>, out: Chan<Message>, policy: VirtualBus.Policy, others: seq<Move>, n: nat)
      returns (m: Message, n': nat)
      requires frames.Valid() && out.Valid() && (frames as object) != (out as object) && n <= |others|
      modifies this, frames, out
      ensures frames.Valid() && out.Valid() && n <= n' <= |others|
      ensures Accounted(old(frames.buf), old(frames.accepted), frames.accepted, [], frames.buf)
      ensures |frames.buf| <= |old(frames.buf)| + (n' - n)
      ensures ClosedBy(old(out.closed), out.closed, others)
      ensures lastNumber == Next(old(lastNumber)) && IsBridged(m, f, lastNumber)
      ensures out.accepted == old(out.accepted)
        || (!out.closed && out.accepted == old(out.accepted) + [m])
      ensures !out.closed && (policy != VirtualBus.DropNewest || |old(out.buf)| < out.capacity) ==>
        out.accepted == old(out.accepted) + [m]
    {
      m := ToMessage(f);
      lastNumber := Next(lastNumber);
      m := m.(number := lastNumber);
      n' := AwaitSend(frames, out, others, n, policy == VirtualBus.Block);
      Put(m, out, policy);
    }

    /** Passes one frame on and keeps the account of what was passed on. */
    method Forward(
      f: Frame, frames: Chan<Frame>, out: Chan<Message>, policy: VirtualBus.Policy, others: seq<Move>, n: nat,
      ghost taken: seq<Frame>, ghost start: uint64, ghost before: seq<Message>, ghost kept: seq<nat>)
      returns (n': nat, ghost kept': seq<nat>)
      requires frames.Valid() && out.Valid() && (frames as object) != (out as object) && n <= |others|
      requires lastNumber == NumberAt(start, |taken|) && PassedOn(taken, start, before, out.accepted, kept)
      modifies this, frames, out
      ensures frames.Valid() && out.Valid() && n <= n' <= |others|
      ensures Accounted(old(frames.buf), old(frames.accepted), frames.accepted, [], frames.buf)
      ensures |frames.buf| <= |old(frames.buf)| + (n' - n)
      ensures ClosedBy(old(out.closed), out.closed, others) && lastNumber == NumberAt(start, |taken| + 1)
      ensures PassedOn(taken + [f], start, before, out.accepted, kept')
      ensures out.closed ==> kept' == kept
      ensures policy != VirtualBus.DropNewest && !out.closed ==> |kept'| == |kept| + 1
    {
      ghost var sofar := out.accepted;
      NumberAtNext(start, |taken|);
      var m;
      m, n' := Pass(f, frames, out, policy, others, n);
      if out.accepted != sofar {
        PassOne(taken, start, before, sofar, kept, f, m);
        kept' := kept + [|taken|];
      } else {
        PassNone(taken, start, before, sofar, kept, f);
        kept' := kept;
      }
    }

    /** One turn of the loop: a frame, if there is to be another, and what becomes of it. */
    method Bridge(
      frames: Chan<Frame>, out: Chan<Message>, policy: VirtualBus.Policy, others: seq<Move>, n: nat,
      ghost buf0: seq<Frame>, ghost accepted0: seq<Frame>,
      ghost taken: seq<Frame>, ghost start: uint64, ghost before: seq<Message>, ghost kept: seq<nat>)
      returns (more: bool, n': nat, ghost taken': seq<Frame>, ghost kept': seq<nat>)
      requires frames.Valid() && out.Valid() && (frames as object) != (out as object) && n <= |others|
      requires Accounted(buf0, accepted0, frames.accepted, taken, frames.buf)
      requires lastNumber == NumberAt(start, |taken|) && PassedOn(taken, start, before, out.accepted, kept)
      modifies this, frames, out
      ensures frames.Valid() && out.Valid() && n <= n' <= |others|
      ensures Accounted(buf0, accepted0, frames.accepted, taken', frames.buf)
      ensures lastNumber == NumberAt(start, |taken'|) && PassedOn(taken', start, before, out.accepted, kept')
      ensures if more then |frames.buf| < |old(frames.buf)| + (n' - n) else frames.closed && frames.buf == []
      ensures ClosedBy(old(out.closed), out.closed, others)
      ensures old(out.closed) ==> kept' == kept
      ensures |kept| == |taken| && policy != VirtualBus.DropNewest && !out.closed ==> |kept'| == |taken'|
    {
      var f: Option<Frame>;
      f, n' := RecvNext(frames, out, others, n, buf0, accepted0, taken);
      more, taken', kept' := f.Some?, taken, kept;
      if more {
        ghost var accepted, buf := frames.accepted, frames.buf;
        taken' := taken + [f.value];
        n', kept' := Forward(f.value, frames, out, policy, others, n', taken, start, before, kept);
        AccountedNext(buf0, accepted0, accepted, taken', buf, frames.accepted, [], frames.buf);
        assert taken' + [] == taken';
      }
    }

    /** The loop of a bridge thread, whatever others do to its channels meanwhile. Every frame
        the bus has put into the channel takes the next number; those passed on are in order,
        each the message of its frame; and unless somebody closes the output only DropNewest
        loses any. The output is closed at the end. */
    method Drain(frames: Chan<Frame>, out: Chan<Message>, policy: VirtualBus.Policy, others: seq<Move>)
      returns (ghost taken: seq<Frame>, ghost kept: seq<nat>)
      requires frames.Valid() && out.Valid() && (frames as object) != (out as object)
      modifies this, frames, out
      ensures frames.Valid() && out.Valid() && frames.buf == [] && frames.closed && out.closed
      ensures Accounted(old(frames.buf), old(frames.accepted), frames.accepted, taken, [])
      ensures lastNumber == NumberAt(old(lastNumber), |taken|)
      ensures PassedOn(taken, old(lastNumber), old(out.accepted), out.accepted, kept)
      ensures old(out.closed) ==> kept == []
      ensures policy != VirtualBus.DropNewest && !old(out.closed) && OutputCloses !in others ==> |kept| == |taken|
    {
      taken, kept := [], [];
      NumberAtZero(lastNumber);
      AccountedNow(frames.buf, frames.accepted);
      var n, more := 0, true;
      while more
        invariant 0 <= n <= |others| && frames.Valid() && out.Valid()
        invariant Accounted(old(frames.buf), old(frames.accepted), frames.accepted, taken, frames.buf)
        invariant lastNumber == NumberAt(old(lastNumber), |taken|)
        invariant PassedOn(taken, old(lastNumber), old(out.accepted), out.accepted, kept)
        invariant ClosedBy(old(out.closed), out.closed, others) && (old(out.closed) ==> kept == [])
        invariant policy != VirtualBus.DropNewest && !old(out.closed) && OutputCloses !in others ==> |kept| == |taken|
        invariant !more ==> frames.closed && frames.buf == []
        decreases more, 2 * (|others| - n) + |frames.buf|
      {
        more, n, taken, kept := Bridge(frames, out, policy, others, n, old(frames.buf), old(frames.accepted),
                                       taken, old(lastNumber), old(out.accepted), kept);
      }
      out.Close();
    }
  }

  /** The k-th number after start. */
  function NumberAt(start: uint64, k: nat): uint64
    decreases k
  {
    if k == 0 then start else Next(NumberAt(start, k - 1))
  }

  lemma NumberAtZero(start: uint64)
    ensures NumberAt(start, 0) == start
  {
  }

  lemma NumberAtNext(start: uint64, k: nat)
    ensures NumberAt(start, k + 1) == Next(NumberAt(start, k))
  {
  }

  /** What was added to the output: the frames numbered kept, in order, as messages. */
  ghost predicate PassedOn(frames: seq<Frame>, start: uint64, before: seq<Message>, after: seq<Message>,
      kept: seq<nat>) {
    && before <= after && |after| == |before| + |kept|
    && (forall j :: 0 <= j < |kept| ==> kept[j] < |frames|)
    && (forall j :: 0 <= j < |kept| ==> IsBridged(after[|before| + j], frames[kept[j]], NumberAt(start, kept[j] + 1)))
    && (forall j, k :: 0 <= j < k < |kept| ==> kept[j] < kept[k])
  }

  lemma PassOne(
    taken: seq<Frame>, start: uint64, before: seq<Message>, sofar: seq<Message>, kept: seq<nat>, f: Frame, m: Message)
    requires PassedOn(taken, start, before, sofar, kept) && IsBridged(m, f, NumberAt(start, |taken| + 1))
    ensures PassedOn(taken + [f], start, before, sofar + [m], kept + [|taken|])
  {
  }

  lemma PassNone(taken: seq<Frame>, start: uint64, before: seq<Message>, sofar: seq<Message>, kept: seq<nat>, f: Frame)
    requires PassedOn(taken, start, before, sofar, kept)
    ensures PassedOn(taken + [f], start, before, sofar, kept)
  {
  }

  lemma NextIs(x: nat, m: nat)
    requires m == 0x1_0000_0000_0000_0000
    ensures Next(x % m) == (x + 1) % m
  {
    var q, r := x / m, x % m;
    assert x == q * m + r;
    if r + 1 < m {
      Split(x + 1, m, q, r + 1);
    } else {
      assert (q + 1) * m == q * m + m;
      Split(x + 1, m, q + 1, 0);
    }
  }

  /** The numbers count on modulo 2^64. */
  lemma {:induction false} NumbersCountOn(start: uint64, k: nat, m: nat)
    requires m == 0x1_0000_0000_0000_0000
    ensures NumberAt(start, k) == (start + k) % m
    decreases k
  {
    if k == 0 {
      SmallModulus(start, m);
    } else {
      NumbersCountOn(start, k - 1, m);
      NextIs(start + k - 1, m);
    }
  }
}
