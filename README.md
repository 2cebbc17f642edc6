# async-reply: typed request/reply over one shared channel, modelled in Dafny

`async-reply` lets concurrent tasks exchange messages of many different types
over one endpoint pair. `endpoints()` creates a `Requester` and a `Replyer`
that share one bounded transport channel. `Requester::send(msg)` pushes an
envelope holding the message and a fresh one-slot reply channel, then waits on
that slot. `Replyer::recv::<M>()` hands out the oldest envelope of type `M`. It
looks first in its pending buffer, then pulls from the transport. While it
pulls, every envelope of another type goes to the buffer's tail for later
calls. `ReplyHandle::respond(r)` fills the reply slot, and the paired `send`
returns `r`.

This project models that core as a sequential state machine and proves its
routing properties. Nothing is lost or duplicated. Only envelopes of the
requested type are handed out. Skipped envelopes keep their order. Each type
is served first in, first out. Every failure has its own error variant.

Modules (one per component of `src/lib.rs`, plus the channel it relies on):

- `Wrappers` (`wrappers.dfy`): `Option`, `Result` and `Poll`. A `Poll` of
  `Pending` stands for an `.await` that would suspend in the current state.
- `Channel` (`channel.dfy`): the bounded `async_std` channel as a class. It has
  a FIFO `queue`, a fixed `capacity` and a `closed` flag.
- `Messages` (`messages.dfy`): type tags, the envelope `MessageHandle`,
  `ReplyHandle` with `Respond`, `into_tuple`, `Error` and the `From<SendError>`
  conversion.
- `Routing` (`routing.dfy`): `recv::<m>` stated on values. `Route` says where
  the buffer's and the queue's envelopes end up and which one is handed out.
  The lemmas are proved about `Route`.
- `AsyncReply` (`async_reply.dfy`): the `Requester` and `Replyer` classes and
  `Endpoints`. `Replyer.Recv` is a `while` loop that mutates the buffer and
  consumes the queue, and it is proved equal to `Route`.
- `Scenarios` (`scenarios.dfy`): clients whose outcomes follow from the
  contracts alone. They cover the crate's doc example, type multiplexing, and
  the failure paths of both endpoints.

Two details of the code that the model keeps:

- `FutureExt::race` inside `recv` polls the buffer search before the
  transport, so with one call at a time a buffered match always wins.
- The error variants keep the code's spellings `ReplayError` and
  `ReceivError`.

## Model

| member | source | states |
|---|---|---|
| `AsyncReply.Endpoints` | src/lib.rs:50-58 | a fresh requester and replyer share one fresh transport of capacity 10; it is open and empty, and the pending buffer is empty |
| `AsyncReply.Requester.Send` | src/lib.rs:92-101 | on an open transport with room, exactly one envelope joins the tail. It carries the tag, the message and a handle on a fresh, empty, open reply slot of capacity 1. A closed transport yields `SendError` and a full one suspends; neither changes the queue |
| `AsyncReply.Requester.AwaitReply` | src/lib.rs:103-104 | a delivered response is returned and taken out of the slot. A slot closed while empty yields `ReplayError`, and an open empty slot suspends. Once `send` is ready it drops its receiver, so the slot is closed; a suspended wait leaves it as it was |
| `AsyncReply.Requester.Drop` | src/lib.rs:62-65 | dropping the last requester closes the transport, and the queued envelopes stay |
| `AsyncReply.Replyer.FindBuffered` | src/lib.rs:118-123 | returns exactly the lowest index of a buffered envelope of type `m`, or `None` when the buffer has none |
| `AsyncReply.Replyer.Recv` | src/lib.rs:109-140 | the new buffer, the new queue and the result are those that `Route` gives for the old buffer, queue and closed flag; the transport's closed flag is unchanged |
| `AsyncReply.Replyer.Drop` | src/lib.rs:68-72 | dropping the replyer closes the transport and the reply slot of every buffered envelope; no queue contents change |
| `Messages.ReplyHandle.Respond` | src/lib.rs:145-147 | on an open slot with room, the response joins the slot. A slot whose requester is gone yields `SendError`, and a slot already holding a response suspends |
| `Messages.ReplyHandle.Drop` | src/lib.rs:77 | dropping a reply handle closes its slot and keeps a response already delivered |
| `Messages.IntoTuple` | src/lib.rs:151-153 | together with the tag, the message and reply handle rebuild the envelope, so nothing it held is lost |
| `Messages.FromSendErrorForgetsValue` | src/lib.rs:173-180 | every channel send failure becomes `Error::SendError`, whatever value it carried back |
| `Routing.FirstIndex` | src/lib.rs:119-123 | a found index is in range, has type `m`, and no earlier entry has type `m`; `None` means no entry has type `m` |
| `Routing.FirstIndexIsFirst` | src/lib.rs:119-123 | an index of type `m` preceded only by other types is the one the search finds |
| `Routing.FirstIndexConcat` | src/lib.rs:116-134 | searching `s ++ t` finds `s`'s first match, or else `t`'s shifted by `|s|`, or else nothing |
| `Routing.RemoveAt` | src/lib.rs:127 | `Vec::remove(i)` drops index `i`; entries before it keep their index and entries after it move down by one |
| `Routing.RemoveAtMultiset` | src/lib.rs:127 | removal loses and duplicates nothing: the old contents are the new ones plus the removed element |
| `Routing.OfTypeRemoveFirst` | src/lib.rs:118-128 | removing the first envelope of type `m` takes the head off `m`'s sequence and leaves every other type's sequence as it was |
| `Routing.RouteFromQueue` | src/lib.rs:132-138 | with no buffered match, the first match in the queue is handed out; the envelopes pulled before it are appended to the buffer, and the queue keeps what follows |
| `Routing.RouteClosedAndDrained` | src/lib.rs:132-134 | with no buffered match and a closed, empty transport, `recv` fails with `ReceivError` and the buffer is unchanged |
| `Routing.RouteShape` | src/lib.rs:113-139 | only type-`m` envelopes are handed out. A buffered match is removed by index and the queue is untouched. Otherwise the pulled envelopes join the buffer's tail in order, and the rest of the queue is untouched. Failure needs a closed transport and suspension an open one, and both happen only once the queue is exhausted |
| `Routing.RouteTakesFirst` | src/lib.rs:115-139 | `recv::<m>` hands out the first type-`m` envelope of the old `buffer ++ queue`, and the new `buffer ++ queue` is the old one with that index removed. With no such envelope nothing moves out of `buffer ++ queue`, and the result is `ReceivError` when closed or a suspension when open |
| `Routing.RouteConserves` | src/lib.rs:115-139 | the multiset of envelopes before a `recv` is the one after it plus the envelope handed out |
| `Routing.RouteInTypeOrder` | src/lib.rs:116-138 | `recv::<m>` returns the head of `m`'s envelopes in arrival order and leaves their tail; every other type's envelopes are unchanged and in the same order |
| `Routing.DrainInTypeOrder` | src/lib.rs:116-138 | `n` successive `recv::<m>` calls return the first `n` envelopes of type `m`, in the order they were sent |
| `Routing.SendKeepsTypeOrder` | src/lib.rs:99-101 | appending an envelope to the queue extends the arrival-order sequence of its own type by that envelope, and changes no other type's |
| `Scenarios.PingPong` | src/lib.rs:20-34 | `send(Ping)` answered by `recv::<Ping>()` and `respond(Pong)` returns `Pong` to the requester |
| `Scenarios.Multiplexing` | src/lib.rs:115-139 | after sends `a1, b1, a2, b2`, two `recv::<A>` and then two `recv::<B>` return `a1, a2, b1, b2` and leave the buffer empty; `b1` was buffered and found again |
| `Scenarios.IncDecInc` | src/lib.rs:115-147 | after sends `Inc, Dec, Inc`, the receives `recv::<Inc>`, `recv::<Dec>` and `recv::<Inc>` each get their own type, and the three requesters each get the response |
| `Scenarios.ReplyDropped` | src/lib.rs:103 | a reply handle dropped without responding makes `send` fail with `ReplayError` |
| `Scenarios.RequesterGaveUp` | src/lib.rs:145-147 | `respond` to a requester that gave up waiting fails with `SendError` |
| `Scenarios.ReplyerGone` | src/lib.rs:99-103 | with the replyer gone, a new `send` fails with `SendError`, and a requester whose envelope was buffered gets `ReplayError` |
| `Scenarios.RequesterGone` | src/lib.rs:132-136 | with every requester gone, `recv::<B>` buffers the remaining `A` and fails with `ReceivError`; a later `recv::<A>` still gets it from the buffer |
| `Scenarios.RespondAfterReply` | src/lib.rs:103-104 | a second `respond` on a handle whose `send` already returned the first response fails with `SendError` |
| `Scenarios.QueuedAfterReplyerGone` | src/lib.rs:68-72 | with the replyer gone, a requester whose envelope is still in the transport keeps waiting |
| `Scenarios.NothingYet` | src/lib.rs:129-132 | with nothing of the requested type on an open transport, `recv` suspends and keeps what it pulled in the buffer |

## Left out

- The async runtime: `race`, `Mutex::lock().await`, `yield_now` and task
  suspension. One `recv` runs at a time, and each wait that would suspend
  returns `Pending` with the state reached so far. Interleaved concurrent
  `recv` calls are not modelled. Under them, FIFO per type is not guaranteed,
  because the channel branch can win while the buffer lock is held elsewhere.
- `Requester.Send`: a pending send is retried by calling it again, which
  allocates a fresh reply slot. The source's suspended future keeps its first
  slot, and nothing can observe the difference. `send` itself is split at its
  two waits into `Send` and `AwaitReply`.
- `Box<dyn Any + Send>` and runtime downcasting become an explicit `TypeTag`
  per message type. The `Message` trait is only a compile-time pairing of a
  message type with its response type. Messages and responses share one value
  type `V`.
- Channel internals of `async_std`: only the queue, the capacity and one
  `closed` flag are modelled. Handle reference counting is not: the `Drop`
  methods stand for dropping the last handle on a side, including the last
  `Requester` clone.
- `AsyncReply.Replyer.Drop`: the envelopes still in the transport are not
  dropped, since the channel keeps owning them while any sender is alive.
  Their reply slots therefore stay open, and a requester whose envelope is
  still in the transport waits for ever while any `Requester` lives
  (`Scenarios.QueuedAfterReplyerGone`).
- `Display` and `derive_more` formatting of `Error`: presentation only.
- async-reply-derive/src/lib.rs is a procedural macro with no runtime
  behaviour. Its expansion module is not part of this model.
- examples/interactive_calc.rs and examples/ping_pong.rs are demo programs
  built on stdin and printing; they are not modelled. `Scenarios` covers the
  crate's doc example, type multiplexing and the failure paths instead.
- src/error.rs is an unused generic enum and has no behaviour.
