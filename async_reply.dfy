/** The two endpoints of the library: `Requester` pushes envelopes onto the
    shared transport channel and waits on a private reply slot; `Replyer`
    hands out envelopes of a requested type, keeping the others in its pending
    buffer for later calls. One call runs at a time, and every `.await` that
    would suspend returns `Pending` with the state reached so far. */
module AsyncReply {
  import opened Wrappers
  import Channel
  import opened Messages
  import opened Routing

  /** Capacity of the transport channel created by `endpoints`. */
  const TransportCapacity: nat := 10

  /** Capacity of the reply slot created by each `send`. */
  const ReplyCapacity: nat := 1

  /** The envelope a `recv` race produced, unpacked with `into_tuple`. */
  function Deliver<V>(o: Poll<Result<MessageHandle<V>, Error>>): (r: Poll<Result<(V, ReplyHandle<V>), Error>>)
  {
    match o
    case Pending => Pending
    case Ready(Ok(e)) => Ready(Ok(IntoTuple(e)))
    case Ready(Err(x)) => Ready(Err(x))
  }

  class Requester<V> {
    const inner: Channel.Bounded<MessageHandle<V>>

    ghost predicate Valid()
      reads inner
    {
      inner.Valid()
    }

    constructor (inner: Channel.Bounded<MessageHandle<V>>)
      ensures this.inner == inner
    {
      this.inner := inner;
    }

    /** `send(msg)` up to its first `.await`: a fresh one-slot reply channel is
        created and the envelope carrying `msg` and that slot's handle is pushed
        onto the transport's tail. The slot is returned for `AwaitReply`. */
    method Send(tag: TypeTag, msg: V) returns (r: Poll<Result<Channel.Bounded<V>, Error>>)
      requires Valid()
      modifies inner
      ensures Valid() && inner.closed == old(inner.closed)
      ensures old(inner.closed) ==> r == Ready(Err(SendError)) && inner.queue == old(inner.queue)
      ensures !old(inner.closed) && |old(inner.queue)| == inner.capacity ==>
        r == Pending && inner.queue == old(inner.queue)
      ensures !old(inner.closed) && |old(inner.queue)| < inner.capacity ==>
        && r.Ready? && r.value.Ok?
        && var slot := r.value.value;
        && fresh(slot) && slot.Valid() && slot.capacity == ReplyCapacity && slot.queue == [] && !slot.closed
        && inner.queue == old(inner.queue) + [MessageHandle(tag, msg, ReplyHandle(slot))]
    {
      var slot := new Channel.Bounded<V>(ReplyCapacity);
      var pushed := inner.Send(MessageHandle(tag, msg, ReplyHandle(slot)));
      match pushed
      case Pending => r := Pending;
      case Ready(Err(e)) => r := Ready(Err(FromSendError(e)));
      case Ready(Ok(_)) => r := Ready(Ok(slot));
    }

    /** The rest of `send`: wait on the reply slot. A response is returned; a
        slot closed without one yields `ReplayError`. Once the wait is over,
        `send` returns and drops its receiver, which closes the slot, so a
        later `respond` on the same handle fails. */
    method AwaitReply(slot: Channel.Bounded<V>) returns (r: Poll<Result<V, Error>>)
      requires slot.Valid()
      modifies slot
      ensures slot.Valid()
      ensures r.Ready? ==> slot.closed
      ensures r.Pending? ==> slot.closed == old(slot.closed)
      ensures old(slot.queue) != [] ==> r == Ready(Ok(old(slot.queue)[0])) && slot.queue == old(slot.queue)[1..]
      ensures old(slot.queue) == [] ==>
        slot.queue == [] && r == if old(slot.closed) then Ready(Err(ReplayError(Channel.RecvError))) else Pending
    {
      var got := slot.Recv();
      match got
      case Pending => r := Pending;
      case Ready(Ok(v)) =>
        r := Ready(Ok(v));
        slot.Close();
      case Ready(Err(e)) =>
        r := Ready(Err(ReplayError(e)));
        slot.Close();
    }

    /** Dropping the last `Requester` closes the transport's sending side. */
    method Drop()
      requires Valid()
      modifies inner
      ensures Valid() && inner.closed && inner.queue == old(inner.queue)
    {
      inner.Close();
    }
  }

  class Replyer<V> {
    var buffer: seq<MessageHandle<V>>
    const inner: Channel.Bounded<MessageHandle<V>>

    ghost predicate Valid()
      reads inner
    {
      inner.Valid()
    }

    constructor (inner: Channel.Bounded<MessageHandle<V>>)
      ensures this.inner == inner && buffer == []
    {
      this.inner := inner;
      buffer := [];
    }

    /** The buffer search: the index of the oldest buffered envelope of type `m`. */
    method FindBuffered(m: TypeTag) returns (index: Option<nat>)
      ensures index == FirstIndex(buffer, m)
    {
      var i := 0;
      while i < |buffer|
        invariant 0 <= i <= |buffer|
        invariant forall j :: 0 <= j < i ==> !IsType(buffer[j], m)
      {
        if IsType(buffer[i], m) {
          FirstIndexIsFirst(buffer, m, i);
          return Some(i);
        }
        i := i + 1;
      }
      FirstIndexNone(buffer, m);
      index := None;
    }

    /** `recv::<m>`: race the buffer search (polled first) against a pull from
        the transport; a pulled envelope of another type goes to the buffer's
        tail and the race restarts. */
    method Recv(m: TypeTag) returns (r: Poll<Result<(V, ReplyHandle<V>), Error>>)
      requires Valid()
      modifies this, inner
      ensures Valid() && inner.closed == old(inner.closed)
      ensures var R := Route(m, old(buffer), old(inner.queue), old(inner.closed));
        buffer == R.buffer && inner.queue == R.queue && r == Deliver(R.outcome)
    {
      ghost var b0, q0, closed := buffer, inner.queue, inner.closed;
      ghost var t: nat := 0;
      while true
        invariant Valid() && inner.closed == closed
        invariant t <= |q0| && buffer == b0 + q0[..t] && inner.queue == q0[t..]
        invariant t > 0 ==> FirstIndex(b0, m).None? && FirstIndex(buffer, m).None?
        invariant FirstIndex(q0[..t], m).None?
        decreases |inner.queue|
      {
        var index := FindBuffered(m);
        ghost var searched := buffer;
        assert t == 0 ==> searched == b0;
        var msg: MessageHandle<V>;
        if index.Some? {
          // a buffered match: pop it
          msg := buffer[index.value];
          buffer := RemoveAt(buffer, index.value);
        } else {
          var pulled := inner.Recv();
          match pulled {
            case Pending =>
              assert q0[..t] == q0;
              RouteExhausted(m, b0, q0, closed);
              return Pending;
            case Ready(Err(e)) =>
              assert q0[..t] == q0;
              RouteExhausted(m, b0, q0, closed);
              return Ready(Err(ReceivError(e)));
            case Ready(Ok(e)) =>
              msg := e;
          }
        }
        if IsType(msg, m) {
          if index.Some? {
            RouteFromBuffer(m, b0, q0, closed, index.value);
          } else {
            RouteFromQueue(m, b0, q0, closed, t);
          }
          return Ready(Ok(IntoTuple(msg)));
        }
        // a pulled envelope of another type: push it and retry
        assert q0[..t + 1] == q0[..t] + [msg];
        FirstIndexConcat(q0[..t], [msg], m);
        FirstIndexConcat(searched, [msg], m);
        buffer := buffer + [msg];
        t := t + 1;
      }
    }

    /** Dropping the `Replyer` closes the transport's receiving side and drops
        the buffered envelopes, which closes their reply slots. Envelopes still
        in the transport stay owned by the channel. */
    method Drop()
      requires Valid()
      requires forall k :: 0 <= k < |buffer| ==> buffer[k].sndr.sndr.Valid()
      modifies inner, set k | 0 <= k < |buffer| :: buffer[k].sndr.sndr
      ensures inner.Valid() && inner.closed
      ensures forall k :: 0 <= k < |buffer| ==> buffer[k].sndr.sndr.Valid() && buffer[k].sndr.sndr.closed
      ensures forall k :: 0 <= k < |buffer| ==> buffer[k].sndr.sndr.queue == old(buffer[k].sndr.sndr.queue)
      ensures inner.queue == old(inner.queue)
    {
      inner.Close();
      var i := 0;
      while i < |buffer|
        invariant 0 <= i <= |buffer|
        invariant inner.Valid() && inner.closed && inner.queue == old(inner.queue)
        invariant forall k :: 0 <= k < |buffer| ==> buffer[k].sndr.sndr.Valid()
        invariant forall k :: 0 <= k < i ==> buffer[k].sndr.sndr.closed
        invariant forall k :: 0 <= k < |buffer| ==> buffer[k].sndr.sndr.queue == old(buffer[k].sndr.sndr.queue)
      {
        buffer[i].sndr.Drop();
        i := i + 1;
      }
    }
  }

  /** `endpoints()`: a requester and a replyer sharing one fresh transport
      channel of capacity 10; the pending buffer starts empty. */
  method Endpoints<V>() returns (requester: Requester<V>, replyer: Replyer<V>)
    ensures fresh(requester) && fresh(replyer) && fresh(replyer.inner)
    ensures requester.inner == replyer.inner
    ensures replyer.Valid() && requester.Valid()
    ensures replyer.inner.capacity == TransportCapacity
    ensures replyer.buffer == [] && replyer.inner.queue == [] && !replyer.inner.closed
  {
    var transport := new Channel.Bounded<MessageHandle<V>>(TransportCapacity);
    requester := new Requester(transport);
    replyer := new Replyer(transport);
  }
}
