/** Chan<T> (include/can/channel.hpp) as a FIFO: what each mutex-held region does to
    the buffer, and the history that accounts for every item. */
module Channel {
  import opened Bytes

  datatype SendResult = SendOk | SendFull | SendClosed

  /** How an item left the buffer. */
  datatype Exit<T> = Received(item: T) | Evicted(item: T)

  /** The buffer and the closed flag, with the history of items taken in and let go. */
  datatype State<T> = State(buf: seq<T>, closed: bool, accepted: seq<T>, gone: seq<Exit<T>>)

  function Items<T>(gone: seq<Exit<T>>): seq<T> {
    seq(|gone|, i requires 0 <= i < |gone| => gone[i].item)
  }

  /** The buffer is what was accepted and has not gone, in order; it never overflows. */
  ghost predicate Sound<T>(st: State<T>, capacity: nat) {
    capacity >= 1 && |st.buf| <= capacity && st.accepted == Items(st.gone) + st.buf
  }

  function Empty<T>(): State<T> { State([], false, [], []) }

  function Push<T>(st: State<T>, value: T): State<T> {
    st.(buf := st.buf + [value], accepted := st.accepted + [value])
  }

  function Pop<T>(st: State<T>): State<T>
    requires st.buf != []
  {
    st.(buf := st.buf[1..], gone := st.gone + [Received(st.buf[0])])
  }

  function Evict<T>(st: State<T>): State<T>
    requires st.buf != []
  {
    st.(buf := st.buf[1..], gone := st.gone + [Evicted(st.buf[0])])
  }

  /** send_drop_oldest on an open channel. */
  function PushEvicting<T>(st: State<T>, capacity: nat, value: T): State<T>
    requires capacity >= 1
  {
    Push(if |st.buf| >= capacity then Evict(st) else st, value)
  }

  function Shut<T>(st: State<T>): State<T> { st.(closed := true) }

  lemma PopSound<T>(st: State<T>, capacity: nat, exit: Exit<T>)
    requires Sound(st, capacity) && st.buf != [] && exit.item == st.buf[0]
    ensures Sound(st.(buf := st.buf[1..], gone := st.gone + [exit]), capacity)
  {
    assert Items(st.gone + [exit]) == Items(st.gone) + [exit.item];
    assert st.buf == [st.buf[0]] + st.buf[1..];
  }

  lemma PushSound<T>(st: State<T>, capacity: nat, value: T)
    requires Sound(st, capacity) && |st.buf| < capacity
    ensures Sound(Push(st, value), capacity)
  {
    assert Items(st.gone) + st.buf + [value] == Items(st.gone) + (st.buf + [value]);
  }

  lemma PushEvictingSound<T>(st: State<T>, capacity: nat, value: T)
    requires Sound(st, capacity)
    ensures Sound(PushEvicting(st, capacity, value), capacity)
  {
    if |st.buf| >= capacity {
      PopSound(st, capacity, Evicted(st.buf[0]));
      PushSound(Evict(st), capacity, value);
    } else {
      PushSound(st, capacity, value);
    }
  }

  // ---------------------------------------------------------------- accounts

  function ReceivedItems<T>(gone: seq<Exit<T>>): seq<T> {
    if gone == [] then []
    else (if gone[0].Received? then [gone[0].item] else []) + ReceivedItems(gone[1..])
  }

  function EvictedItems<T>(gone: seq<Exit<T>>): seq<T> {
    if gone == [] then []
    else (if gone[0].Evicted? then [gone[0].item] else []) + EvictedItems(gone[1..])
  }

  /** s is t with some items left out. */
  ghost predicate Subsequence<T>(s: seq<T>, t: seq<T>) {
    if s == [] then true
    else t != [] && ((s[0] == t[0] && Subsequence(s[1..], t[1..])) || Subsequence(s, t[1..]))
  }

  lemma {:induction false} ReceivedAmongGone<T>(gone: seq<Exit<T>>, rest: seq<T>)
    ensures Subsequence(ReceivedItems(gone), Items(gone) + rest)
    ensures |gone| == |ReceivedItems(gone)| + |EvictedItems(gone)|
  {
    if gone != [] {
      ReceivedAmongGone(gone[1..], rest);
      assert (Items(gone) + rest)[1..] == Items(gone[1..]) + rest;
      assert (Items(gone) + rest)[0] == gone[0].item;
      if gone[0].Received? {
        assert ReceivedItems(gone)[1..] == ReceivedItems(gone[1..]);
      } else {
        assert ReceivedItems(gone) == ReceivedItems(gone[1..]);
      }
    }
  }

  /** Conservation: what receivers got is in the order it was sent, and every accepted
      item was received, was evicted or is still buffered. */
  lemma Conservation<T>(st: State<T>, capacity: nat)
    requires Sound(st, capacity)
    ensures Subsequence(ReceivedItems(st.gone), st.accepted)
    ensures |st.accepted| == |ReceivedItems(st.gone)| + |EvictedItems(st.gone)| + |st.buf|
    ensures st.buf == st.accepted[|st.accepted| - |st.buf|..]
  {
    ReceivedAmongGone(st.gone, st.buf);
  }

  /** What repeated receives yield on a closed channel. */
  function Drained<T>(st: State<T>, times: nat): seq<Option<T>>
    decreases times
  {
    if times == 0 then []
    else if st.buf == [] then [None] + Drained(st, times - 1)
    else [Some(st.buf[0])] + Drained(Pop(st), times - 1)
  }

  /** A closed channel yields its remainder in order, then none for ever. */
  lemma {:induction false} ClosedDrains<T>(st: State<T>, times: nat)
    ensures |Drained(st, times)| == times
    ensures forall i :: 0 <= i < times ==>
      Drained(st, times)[i] == if i < |st.buf| then Some(st.buf[i]) else None
    decreases times
  {
    if times > 0 {
      ClosedDrains(if st.buf == [] then st else Pop(st), times - 1);
    }
  }

  // ---------------------------------------------------------------- the class

  class Chan<T> {
    const capacity: nat
    var buf: seq<T>
    var closed: bool
    ghost var accepted: seq<T>
    ghost var gone: seq<Exit<T>>

    ghost function Now(): State<T>
      reads this
    {
      State(buf, closed, accepted, gone)
    }

    ghost predicate Valid()
      reads this
    {
      Sound(Now(), capacity)
    }

    constructor (capacity: nat)
      requires capacity >= 1
      ensures this.capacity == capacity && Now() == Empty() && Valid()
    {
      this.capacity := capacity;
      buf, closed := [], false;
      accepted, gone := [], [];
    }

    /** send, from where its wait returns. */
    method Send(value: T) returns (sent: bool)
      requires Valid() && (closed || |buf| < capacity)
      modifies this
      ensures Valid() && sent == !old(closed) && closed == old(closed) && gone == old(gone)
      ensures buf == (if sent then old(buf) + [value] else old(buf))
      ensures accepted == (if sent then old(accepted) + [value] else old(accepted))
      ensures Now() == if sent then Push(old(Now()), value) else old(Now())
    {
      if closed {
        return false;
      }
      PushSound(Now(), capacity, value);
      buf := buf + [value];
      accepted := accepted + [value];
      return true;
    }

    method TrySend(value: T) returns (r: SendResult)
      requires Valid()
      modifies this
      ensures Valid() && closed == old(closed) && gone == old(gone)
      ensures r == if old(closed) then SendClosed else if |old(buf)| >= capacity then SendFull else SendOk
      ensures buf == (if r == SendOk then old(buf) + [value] else old(buf))
      ensures accepted == (if r == SendOk then old(accepted) + [value] else old(accepted))
      ensures Now() == if r == SendOk then Push(old(Now()), value) else old(Now())
    {
      if closed {
        return SendClosed;
      }
      if |buf| >= capacity {
        return SendFull;
      }
      PushSound(Now(), capacity, value);
      buf := buf + [value];
      accepted := accepted + [value];
      return SendOk;
    }

    method SendDropOldest(value: T) returns (sent: bool)
      requires Valid()
      modifies this
      ensures Valid() && sent == !old(closed) && closed == old(closed)
      ensures !sent ==> buf == old(buf) && accepted == old(accepted) && gone == old(gone)
      ensures sent ==>
        && buf == (if |old(buf)| >= capacity then old(buf)[1..] else old(buf)) + [value]
        && accepted == old(accepted) + [value]
        && gone == old(gone) + (if |old(buf)| >= capacity then [Evicted(old(buf)[0])] else [])
      ensures Now() == if sent then PushEvicting(old(Now()), capacity, value) else old(Now())
    {
      if closed {
        return false;
      }
      PushEvictingSound(Now(), capacity, value);
      if |buf| >= capacity {
        gone := gone + [Evicted(buf[0])];
        buf := buf[1..];
      }
      buf := buf + [value];
      accepted := accepted + [value];
      return true;
    }

    /** recv and recv_for, from where their wait returns, and try_recv: an empty buffer
        means closed, timed out or nothing there. */
    method Take() returns (r: Option<T>)
      requires Valid()
      modifies this
      ensures Valid() && closed == old(closed) && accepted == old(accepted)
      ensures r == if old(buf) == [] then None else Some(old(buf)[0])
      ensures buf == (if r.Some? then old(buf)[1..] else [])
      ensures gone == old(gone) + (if r.Some? then [Received(r.value)] else [])
      ensures Now() == if old(buf) == [] then old(Now()) else Pop(old(Now()))
    {
      if buf == [] {
        return None;
      }
      PopSound(Now(), capacity, Received(buf[0]));
      r := Some(buf[0]);
      gone := gone + [Received(buf[0])];
      buf := buf[1..];
    }

    method Close()
      requires Valid()
      modifies this
      ensures Valid() && closed && buf == old(buf) && accepted == old(accepted) && gone == old(gone)
      ensures Now() == Shut(old(Now()))
    {
      closed := true;
    }
  }
}
