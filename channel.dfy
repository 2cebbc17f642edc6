/** The bounded `async_std::channel` used by the library, reduced to what the
    library relies on: FIFO contents, a fixed capacity and a closed flag.
    A channel is closed once every handle on one of its two sides is gone;
    after that sending fails and receiving drains what is left, then fails. */
module Channel {
  import opened Wrappers

  /** `SendError<T>`: carries the value that could not be delivered. */
  datatype SendError<T> = SendError(undelivered: T)

  /** `RecvError`: the channel is closed and empty. */
  datatype RecvError = RecvError

  class Bounded<T> {
    const capacity: nat
    var queue: seq<T>
    var closed: bool

    ghost predicate Valid()
      reads this
    {
      0 < capacity && |queue| <= capacity
    }

    /** `channel::bounded(capacity)`; a zero capacity is rejected by async_std. */
    constructor (capacity: nat)
      requires 0 < capacity
      ensures Valid()
      ensures this.capacity == capacity && queue == [] && !closed
    {
      this.capacity := capacity;
      queue := [];
      closed := false;
    }

    /** One poll of `Sender::send(x)`: a closed channel hands the value back,
        a full one suspends, otherwise `x` joins the tail of the queue. */
    method Send(x: T) returns (p: Poll<Result<(), SendError<T>>>)
      requires Valid()
      modifies this
      ensures Valid() && closed == old(closed)
      ensures old(closed) ==> p == Ready(Err(SendError(x))) && queue == old(queue)
      ensures !old(closed) && |old(queue)| == capacity ==> p == Pending && queue == old(queue)
      ensures !old(closed) && |old(queue)| < capacity ==> p == Ready(Ok(())) && queue == old(queue) + [x]
    {
      if closed {
        p := Ready(Err(SendError(x)));
      } else if |queue| == capacity {
        p := Pending;
      } else {
        queue := queue + [x];
        p := Ready(Ok(()));
      }
    }

    /** One poll of `Receiver::recv()`: the oldest value if there is one,
        otherwise `RecvError` on a closed channel and a suspension on an open one. */
    method Recv() returns (p: Poll<Result<T, RecvError>>)
      requires Valid()
      modifies this
      ensures Valid() && closed == old(closed)
      ensures old(queue) != [] ==> p == Ready(Ok(old(queue)[0])) && queue == old(queue)[1..]
      ensures old(queue) == [] ==> queue == [] && p == if closed then Ready(Err(RecvError)) else Pending
    {
      if queue != [] {
        p := Ready(Ok(queue[0]));
        queue := queue[1..];
      } else if closed {
        p := Ready(Err(RecvError));
      } else {
        p := Pending;
      }
    }

    /** The last handle on one side of the channel is dropped. */
    method Close()
      requires Valid()
      modifies this
      ensures Valid() && closed && queue == old(queue)
    {
      closed := true;
    }
  }
}
