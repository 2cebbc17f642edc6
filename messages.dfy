/** The values that travel through the library: type tags, envelopes
    (`MessageHandle`), reply handles and the error taxonomy. */
module Messages {
  import opened Wrappers
  import Channel

  /** The runtime identity of a message type: what `Any::is::<MessageHandle<M>>`
      compares. Each `Message` type has its own tag. */
  type TypeTag = nat

  /** The library's `Error`. */
  datatype Error =
    | SendError                          // a channel's receiving side is gone
    | ReplayError(Channel.RecvError)     // the reply slot closed without a response
    | ReceivError(Channel.RecvError)     // the transport is closed and drained

  /** `From<channel::SendError<T>> for Error`: the undelivered value is dropped. */
  function FromSendError<T>(e: Channel.SendError<T>): (r: Error)
  {
    SendError
  }

  /** Whatever value was left undelivered, the conversion yields the same error. */
  lemma FromSendErrorForgetsValue<T>(a: Channel.SendError<T>, b: Channel.SendError<T>)
    ensures FromSendError(a) == FromSendError(b) == SendError
  {
  }

  /** `ReplyHandle<T>`: the one sending handle of a requester's one-slot reply channel. */
  datatype ReplyHandle<V> = ReplyHandle(sndr: Channel.Bounded<V>)
  {
    /** One poll of `respond(r)`: deliver `r` into the reply slot; a slot whose
        requester is gone yields `SendError`, a slot already holding a response
        suspends. */
    method Respond(r: V) returns (p: Poll<Result<(), Error>>)
      requires sndr.Valid()
      modifies sndr
      ensures sndr.Valid() && sndr.closed == old(sndr.closed)
      ensures old(sndr.closed) ==> p == Ready(Err(SendError)) && sndr.queue == old(sndr.queue)
      ensures !old(sndr.closed) && |old(sndr.queue)| == sndr.capacity ==> p == Pending && sndr.queue == old(sndr.queue)
      ensures !old(sndr.closed) && |old(sndr.queue)| < sndr.capacity ==> p == Ready(Ok(())) && sndr.queue == old(sndr.queue) + [r]
    {
      var sent := sndr.Send(r);
      match sent
      case Pending => p := Pending;
      case Ready(Ok(_)) => p := Ready(Ok(()));
      case Ready(Err(e)) => p := Ready(Err(FromSendError(e)));
    }

    /** Dropping the handle closes the reply slot: it held the slot's only sender. */
    method Drop()
      requires sndr.Valid()
      modifies sndr
      ensures sndr.Valid() && sndr.closed && sndr.queue == old(sndr.queue)
    {
      sndr.Close();
    }
  }

  /** `MessageHandle<M>` once boxed as `dyn Any`: the message, its private reply
      handle, and the tag of its concrete type. */
  datatype MessageHandle<V> = MessageHandle(tag: TypeTag, msg: V, sndr: ReplyHandle<V>)

  /** `is_message_type`: the envelope's concrete type is `MessageHandle<M>`. */
  predicate IsType<V>(e: MessageHandle<V>, m: TypeTag)
  {
    e.tag == m
  }

  /** `into_tuple`: the message and its reply handle, which together with the
      tag are all the envelope holds. */
  function IntoTuple<V>(e: MessageHandle<V>): (r: (V, ReplyHandle<V>))
    ensures MessageHandle(e.tag, r.0, r.1) == e
  {
    (e.msg, e.sndr)
  }
}
