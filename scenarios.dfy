/** Clients of the two endpoints, run one step at a time, whose outcomes follow
    from the contracts alone: the crate's doc example, type multiplexing, and
    the failure paths of both endpoints. */
module Scenarios {
  import opened Wrappers
  import Channel
  import opened Messages
  import opened Routing
  import opened AsyncReply

  const PING: TypeTag := 0
  const A: TypeTag := 1
  const B: TypeTag := 2
  const INC: TypeTag := 3
  const DEC: TypeTag := 4

  /** The doc example of `src/lib.rs`: `send(Ping)` is answered by the task that
      ran `recv::<Ping>()` and `respond(Pong)`, and the requester gets `Pong`. */
  method PingPong<V>(ping: V, pong: V) returns (reply: Poll<Result<V, Error>>)
    ensures reply == Ready(Ok(pong))
  {
    var requester, replyer := Endpoints<V>();
    var sent := requester.Send(PING, ping);
    var slot := sent.value.value;
    var got := replyer.Recv(PING);
    assert got == Ready(Ok((ping, ReplyHandle(slot))));
    var handle := got.value.value.1;
    var responded := handle.Respond(pong);
    assert responded == Ready(Ok(()));
    handle.Drop();
    reply := requester.AwaitReply(slot);
  }

  /** Envelopes `a1, b1, a2, b2` sent in that order, then `recv::<A>` twice and
      `recv::<B>` twice: the `A`s come out in order, `b1` is buffered while
      serving the second `recv::<A>` and found there by the first `recv::<B>`. */
  method Multiplexing<V>(a1: V, b1: V, a2: V, b2: V) returns (got: seq<V>, buffered: seq<MessageHandle<V>>)
    ensures got == [a1, a2, b1, b2]
    ensures buffered == []
  {
    var requester, replyer := Endpoints<V>();
    var s1 := requester.Send(A, a1);
    var s2 := requester.Send(B, b1);
    var s3 := requester.Send(A, a2);
    var s4 := requester.Send(B, b2);
    ghost var ea1 := MessageHandle(A, a1, ReplyHandle(s1.value.value));
    ghost var eb1 := MessageHandle(B, b1, ReplyHandle(s2.value.value));
    ghost var ea2 := MessageHandle(A, a2, ReplyHandle(s3.value.value));
    ghost var eb2 := MessageHandle(B, b2, ReplyHandle(s4.value.value));
    assert replyer.inner.queue == [ea1, eb1, ea2, eb2];
    FirstIndexIsFirst([ea1, eb1, ea2, eb2], A, 0);
    var r1 := replyer.Recv(A);
    assert replyer.buffer == [] && replyer.inner.queue == [eb1, ea2, eb2];
    FirstIndexIsFirst([eb1, ea2, eb2], A, 1);
    assert [eb1, ea2, eb2][..1] == [eb1];
    var r2 := replyer.Recv(A);
    assert replyer.buffer == [eb1] && replyer.inner.queue == [eb2];
    FirstIndexIsFirst([eb1], B, 0);
    var r3 := replyer.Recv(B);
    assert replyer.buffer == [] && replyer.inner.queue == [eb2];
    FirstIndexIsFirst([eb2], B, 0);
    var r4 := replyer.Recv(B);
    got := [r1.value.value.0, r2.value.value.0, r3.value.value.0, r4.value.value.0];
    buffered := replyer.buffer;
  }

  /** The replyer drops the handle without responding: the requester gets
      `ReplayError`. */
  method ReplyDropped<V>(ping: V) returns (reply: Poll<Result<V, Error>>)
    ensures reply == Ready(Err(ReplayError(Channel.RecvError)))
  {
    var requester, replyer := Endpoints<V>();
    var sent := requester.Send(PING, ping);
    var slot := sent.value.value;
    var got := replyer.Recv(PING);
    var handle := got.value.value.1;
    handle.Drop();
    reply := requester.AwaitReply(slot);
  }

  /** The requester gave up waiting (its side of the reply slot is gone): the
      response cannot be delivered and `respond` fails with `SendError`. */
  method RequesterGaveUp<V>(ping: V, pong: V) returns (responded: Poll<Result<(), Error>>)
    ensures responded == Ready(Err(SendError))
  {
    var requester, replyer := Endpoints<V>();
    var sent := requester.Send(PING, ping);
    var slot := sent.value.value;
    slot.Close();
    var got := replyer.Recv(PING);
    var handle := got.value.value.1;
    responded := handle.Respond(pong);
  }

  /** With the replyer gone, a `send` fails with `SendError`, and a requester
      whose envelope was buffered gets `ReplayError`. */
  method ReplyerGone<V>(a: V, b: V) returns (later: Poll<Result<Channel.Bounded<V>, Error>>, waiting: Poll<Result<V, Error>>)
    ensures later == Ready(Err(SendError))
    ensures waiting == Ready(Err(ReplayError(Channel.RecvError)))
  {
    var requester, replyer := Endpoints<V>();
    var s1 := requester.Send(A, a);
    var slot := s1.value.value;
    var s2 := requester.Send(B, b);
    ghost var ea, eb := MessageHandle(A, a, ReplyHandle(slot)), MessageHandle(B, b, ReplyHandle(s2.value.value));
    assert replyer.inner.queue == [ea, eb];
    assert [ea, eb][..1] == [ea];
    FirstIndexIsFirst([ea, eb], B, 1);
    var r := replyer.Recv(B);
    assert replyer.buffer == [MessageHandle(A, a, ReplyHandle(slot))];
    replyer.Drop();
    later := requester.Send(A, a);
    waiting := requester.AwaitReply(slot);
  }

  /** With every requester gone, `recv` drains the transport: an envelope of
      another type is buffered and the call fails with `ReceivError`; a later
      `recv` of that type still finds it in the buffer. */
  method RequesterGone<V>(a: V) returns (first: Poll<Result<(V, ReplyHandle<V>), Error>>, second: Poll<Result<(V, ReplyHandle<V>), Error>>)
    ensures first == Ready(Err(ReceivError(Channel.RecvError)))
    ensures second.Ready? && second.value.Ok? && second.value.value.0 == a
  {
    var requester, replyer := Endpoints<V>();
    var s1 := requester.Send(A, a);
    requester.Drop();
    first := replyer.Recv(B);
    second := replyer.Recv(A);
  }

  /** A `recv` with nothing of its type about suspends on an open transport,
      keeping what it pulled in the buffer. */
  method NothingYet<V>(a: V) returns (r: Poll<Result<(V, ReplyHandle<V>), Error>>, buffered: nat)
    ensures r == Pending
    ensures buffered == 1
  {
    var requester, replyer := Endpoints<V>();
    var s1 := requester.Send(A, a);
    r := replyer.Recv(B);
    buffered := |replyer.buffer|;
  }

  /** `Inc`, `Dec`, `Inc` sent with no receive in between, then `recv::<Inc>`,
      `recv::<Dec>`, `recv::<Inc>`, each answered: every call gets its own type
      and all three requesters get their responses. */
  method IncDecInc<V>(inc1: V, dec: V, inc2: V, ok: V) returns (got: seq<V>, replies: seq<Poll<Result<V, Error>>>)
    ensures got == [inc1, dec, inc2]
    ensures replies == [Ready(Ok(ok)), Ready(Ok(ok)), Ready(Ok(ok))]
  {
    var requester, replyer := Endpoints<V>();
    var s1 := requester.Send(INC, inc1);
    var s2 := requester.Send(DEC, dec);
    var s3 := requester.Send(INC, inc2);
    var slot1, slot2, slot3 := s1.value.value, s2.value.value, s3.value.value;
    var r1 := replyer.Recv(INC);
    var p1 := r1.value.value.1.Respond(ok);
    var r2 := replyer.Recv(DEC);
    var p2 := r2.value.value.1.Respond(ok);
    var r3 := replyer.Recv(INC);
    var p3 := r3.value.value.1.Respond(ok);
    got := [r1.value.value.0, r2.value.value.0, r3.value.value.0];
    var w1 := requester.AwaitReply(slot1);
    var w2 := requester.AwaitReply(slot2);
    var w3 := requester.AwaitReply(slot3);
    replies := [w1, w2, w3];
  }

  /** A second `respond` on a handle whose `send` has already returned fails
      with `SendError`: the requester's receiver is gone. */
  method RespondAfterReply<V>(ping: V, r1: V, r2: V) returns (reply: Poll<Result<V, Error>>, second: Poll<Result<(), Error>>)
    ensures reply == Ready(Ok(r1))
    ensures second == Ready(Err(SendError))
  {
    var requester, replyer := Endpoints<V>();
    var sent := requester.Send(PING, ping);
    var slot := sent.value.value;
    var got := replyer.Recv(PING);
    var handle := got.value.value.1;
    var first := handle.Respond(r1);
    reply := requester.AwaitReply(slot);
    second := handle.Respond(r2);
  }

  /** With the replyer gone, a requester whose envelope is still in the
      transport keeps waiting: the channel still owns the envelope, so its
      reply slot never closes while a requester is alive. */
  method QueuedAfterReplyerGone<V>(a: V) returns (waiting: Poll<Result<V, Error>>)
    ensures waiting == Pending
  {
    var requester, replyer := Endpoints<V>();
    var sent := requester.Send(A, a);
    var slot := sent.value.value;
    replyer.Drop();
    waiting := requester.AwaitReply(slot);
  }
}
