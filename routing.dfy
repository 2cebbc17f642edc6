/** The routing performed by `Replyer::recv::<M>`, stated on values: where the
    envelopes of the pending buffer and the transport queue end up, and which
    one, if any, is handed out. */
module Routing {
  import opened Wrappers
  import Channel
  import opened Messages

  /** The lowest index of an envelope of type `m`: the `enumerate().find(..)`
      search over the pending buffer. */
  function FirstIndex<V>(s: seq<MessageHandle<V>>, m: TypeTag): (r: Option<nat>)
    ensures r.Some? ==> r.value < |s| && IsType(s[r.value], m)
    ensures r.Some? ==> forall j :: 0 <= j < r.value ==> !IsType(s[j], m)
    ensures r.None? ==> forall j :: 0 <= j < |s| ==> !IsType(s[j], m)
  {
    if s == [] then None
    else if IsType(s[0], m) then Some(0)
    else match FirstIndex(s[1..], m)
      case None => None
      case Some(i) => Some(i + 1)
  }

  /** An index whose predecessors all have another type is the one found. */
  lemma {:induction false} FirstIndexIsFirst<V>(s: seq<MessageHandle<V>>, m: TypeTag, i: nat)
    requires i < |s| && IsType(s[i], m)
    requires forall j :: 0 <= j < i ==> !IsType(s[j], m)
    ensures FirstIndex(s, m) == Some(i)
  {
    if i > 0 {
      FirstIndexIsFirst(s[1..], m, i - 1);
    }
  }

  /** With no envelope of type `m`, nothing is found. */
  lemma FirstIndexNone<V>(s: seq<MessageHandle<V>>, m: TypeTag)
    requires forall j :: 0 <= j < |s| ==> !IsType(s[j], m)
    ensures FirstIndex(s, m) == None
  {
  }

  /** `Vec::remove(i)`: the element at `i` leaves, the others keep their order. */
  function RemoveAt<T>(s: seq<T>, i: nat): (r: seq<T>)
    requires i < |s|
    ensures |r| == |s| - 1
    ensures forall k :: 0 <= k < i ==> r[k] == s[k]
    ensures forall k :: i <= k < |r| ==> r[k] == s[k + 1]
  {
    s[..i] + s[i + 1..]
  }

  /** `Vec::remove` neither loses nor duplicates an element. */
  lemma RemoveAtMultiset<T>(s: seq<T>, i: nat)
    requires i < |s|
    ensures multiset(s) == multiset(RemoveAt(s, i)) + multiset{s[i]}
  {
    assert s == s[..i] + [s[i]] + s[i + 1..];
  }

  /** The envelopes of type `m`, oldest first. */
  function OfType<V>(s: seq<MessageHandle<V>>, m: TypeTag): (r: seq<MessageHandle<V>>)
    ensures |r| <= |s|
    ensures forall k :: 0 <= k < |r| ==> IsType(r[k], m)
  {
    if s == [] then []
    else (if IsType(s[0], m) then [s[0]] else []) + OfType(s[1..], m)
  }

  /** The state after one `recv::<M>` run to completion or to its first suspension. */
  datatype Routed<V> = Routed(
    outcome: Poll<Result<MessageHandle<V>, Error>>,
    buffer: seq<MessageHandle<V>>,
    queue: seq<MessageHandle<V>>)

  /** `recv::<m>` on a pending buffer and a transport queue (`closed` tells
      whether the queue's sending side is gone). A buffered match is removed by
      index; otherwise the queue is pulled until a match, every envelope of
      another type going to the buffer's tail, and an exhausted queue ends in
      `ReceivError` when closed and in a suspension when open. */
  function Route<V>(m: TypeTag, buffer: seq<MessageHandle<V>>, queue: seq<MessageHandle<V>>, closed: bool): (r: Routed<V>)
  {
    match FirstIndex(buffer, m)
    case Some(i) => Routed(Ready(Ok(buffer[i])), RemoveAt(buffer, i), queue)
    case None =>
      match FirstIndex(queue, m)
      case Some(k) => Routed(Ready(Ok(queue[k])), buffer + queue[..k], queue[k + 1..])
      case None => Routed(if closed then Ready(Err(ReceivError(Channel.RecvError))) else Pending, buffer + queue, [])
  }

  // ---------------------------------------------------------------------------
  // Lemmas about the search and the type filter

  /** Searching a concatenation finds the first part's match before the second's. */
  lemma {:induction false} FirstIndexConcat<V>(s: seq<MessageHandle<V>>, t: seq<MessageHandle<V>>, m: TypeTag)
    ensures FirstIndex(s + t, m) ==
      (match FirstIndex(s, m)
       case Some(i) => Some(i)
       case None =>
         match FirstIndex(t, m)
         case Some(k) => Some(|s| + k)
         case None => None)
  {
    if s != [] {
      assert (s + t)[1..] == s[1..] + t;
      FirstIndexConcat(s[1..], t, m);
    } else {
      assert s + t == t;
    }
  }

  lemma {:induction false} OfTypeConcat<V>(s: seq<MessageHandle<V>>, t: seq<MessageHandle<V>>, m: TypeTag)
    ensures OfType(s + t, m) == OfType(s, m) + OfType(t, m)
  {
    if s == [] {
      assert s + t == t;
    } else {
      assert (s + t)[1..] == s[1..] + t;
      OfTypeConcat(s[1..], t, m);
    }
  }

  /** There is an envelope of type `m` exactly when the type filter is non-empty,
      and the first one found is the head of the filter. */
  lemma {:induction false} OfTypeHead<V>(s: seq<MessageHandle<V>>, m: TypeTag)
    ensures FirstIndex(s, m).None? <==> OfType(s, m) == []
    ensures FirstIndex(s, m).Some? ==> OfType(s, m)[0] == s[FirstIndex(s, m).value]
  {
    if s != [] {
      OfTypeHead(s[1..], m);
    }
  }

  lemma OfTypeSingle<V>(x: MessageHandle<V>, n: TypeTag)
    ensures OfType([x], n) == if IsType(x, n) then [x] else []
  {
    assert [x][1..] == [];
  }

  /** The filter of `pre ++ [x] ++ post`, piece by piece. */
  lemma OfTypeAround<V>(pre: seq<MessageHandle<V>>, x: MessageHandle<V>, post: seq<MessageHandle<V>>, n: TypeTag)
    ensures OfType(pre + [x] + post, n) == OfType(pre, n) + OfType([x], n) + OfType(post, n)
    ensures OfType(pre + post, n) == OfType(pre, n) + OfType(post, n)
  {
    OfTypeConcat(pre + [x], post, n);
    OfTypeConcat(pre, [x], n);
    OfTypeConcat(pre, post, n);
  }

  /** Removing the first envelope of type `m` removes the head of `m`'s filter
      and leaves every other type's filter as it was. */
  lemma OfTypeRemoveFirst<V>(s: seq<MessageHandle<V>>, m: TypeTag, j: nat)
    requires FirstIndex(s, m) == Some(j)
    ensures OfType(s, m) == [s[j]] + OfType(RemoveAt(s, j), m)
    ensures forall n :: n != m ==> OfType(RemoveAt(s, j), n) == OfType(s, n)
  {
    var pre, x, post := s[..j], s[j], s[j + 1..];
    assert s == pre + [x] + post;
    assert RemoveAt(s, j) == pre + post;
    assert FirstIndex(pre, m).None? by {
      forall k | 0 <= k < |pre| ensures !IsType(pre[k], m) {
        assert pre[k] == s[k];
      }
    }
    OfTypeHead(pre, m);
    OfTypeAround(pre, x, post, m);
    OfTypeSingle(x, m);
    forall n | n != m
      ensures OfType(RemoveAt(s, j), n) == OfType(s, n)
    {
      OfTypeAround(pre, x, post, n);
      OfTypeSingle(x, n);
    }
  }

  // ---------------------------------------------------------------------------
  // Lemmas about one `recv`

  /** The three ways a `recv` ends, as its loop reaches them. */
  lemma RouteFromBuffer<V>(m: TypeTag, buffer: seq<MessageHandle<V>>, queue: seq<MessageHandle<V>>, closed: bool, i: nat)
    requires FirstIndex(buffer, m) == Some(i)
    ensures Route(m, buffer, queue, closed) == Routed(Ready(Ok(buffer[i])), RemoveAt(buffer, i), queue)
  {
  }

  lemma RouteFromQueue<V>(m: TypeTag, buffer: seq<MessageHandle<V>>, queue: seq<MessageHandle<V>>, closed: bool, t: nat)
    requires FirstIndex(buffer, m).None?
    requires t < |queue| && FirstIndex(queue[..t], m).None? && IsType(queue[t], m)
    ensures Route(m, buffer, queue, closed) == Routed(Ready(Ok(queue[t])), buffer + queue[..t], queue[t + 1..])
  {
    assert queue == queue[..t] + queue[t..];
    FirstIndexConcat(queue[..t], queue[t..], m);
  }

  lemma RouteExhausted<V>(m: TypeTag, buffer: seq<MessageHandle<V>>, queue: seq<MessageHandle<V>>, closed: bool)
    requires FirstIndex(buffer, m).None? && FirstIndex(queue, m).None?
    ensures Route(m, buffer, queue, closed) ==
      Routed(if closed then Ready(Err(ReceivError(Channel.RecvError))) else Pending, buffer + queue, [])
  {
  }

  /** No envelope of type `m` buffered and a closed, drained queue: `recv`
      fails with `ReceivError` and leaves the buffer as it was. */
  lemma RouteClosedAndDrained<V>(m: TypeTag, buffer: seq<MessageHandle<V>>)
    requires FirstIndex(buffer, m).None?
    ensures Route(m, buffer, [], true) == Routed(Ready(Err(ReceivError(Channel.RecvError))), buffer, [])
  {
    assert buffer + [] == buffer;
  }

  /** Only type-`m` envelopes are handed out. A buffered match is removed by
      index and the queue is left alone; otherwise the envelopes pulled before
      the match join the buffer's tail in arrival order, the match leaves, and
      the rest of the queue is untouched. Failing and suspending happen only
      once the queue is exhausted, on a closed and an open queue respectively. */
  lemma RouteShape<V>(m: TypeTag, buffer: seq<MessageHandle<V>>, queue: seq<MessageHandle<V>>, closed: bool)
    ensures var R := Route(m, buffer, queue, closed);
      var handed := if R.outcome.Ready? && R.outcome.value.Ok? then [R.outcome.value.value] else [];
      && (R.outcome.Ready? && R.outcome.value.Ok? ==> IsType(R.outcome.value.value, m))
      && (R.outcome.Ready? && R.outcome.value.Err? ==>
            closed && R.outcome.value.error == ReceivError(Channel.RecvError) && R.queue == [])
      && (R.outcome.Pending? ==> !closed && R.queue == [])
      && (FirstIndex(buffer, m).Some? ==>
            R.queue == queue && R.buffer == RemoveAt(buffer, FirstIndex(buffer, m).value))
      && (FirstIndex(buffer, m).None? ==>
            |buffer| <= |R.buffer| && R.buffer[..|buffer|] == buffer && R.buffer[|buffer|..] + handed + R.queue == queue)
  {
    if FirstIndex(buffer, m).None? {
      var R := Route(m, buffer, queue, closed);
      assert R.buffer[..|buffer|] == buffer;
      match FirstIndex(queue, m) {
        case Some(k) =>
          assert R.buffer[|buffer|..] == queue[..k];
          assert queue == queue[..k] + [queue[k]] + queue[k + 1..];
        case None =>
          assert R.buffer[|buffer|..] == queue;
      }
    }
  }

  /** `recv::<m>` hands out the first envelope of type `m` in `buffer ++ queue`
      and removes exactly that one; with none, nothing is removed and the
      outcome is `ReceivError` on a closed queue and a suspension on an open one. */
  lemma RouteTakesFirst<V>(m: TypeTag, buffer: seq<MessageHandle<V>>, queue: seq<MessageHandle<V>>, closed: bool)
    ensures var all, R := buffer + queue, Route(m, buffer, queue, closed);
      (match FirstIndex(all, m)
       case Some(j) => R.outcome == Ready(Ok(all[j])) && R.buffer + R.queue == RemoveAt(all, j)
       case None =>
         && R.outcome == (if closed then Ready(Err(ReceivError(Channel.RecvError))) else Pending)
         && R.buffer + R.queue == all)
  {
    var all := buffer + queue;
    FirstIndexConcat(buffer, queue, m);
    match FirstIndex(buffer, m) {
      case Some(i) =>
        RouteFromBuffer(m, buffer, queue, closed, i);
        RemoveAtLeft(buffer, queue, i);
      case None =>
        match FirstIndex(queue, m) {
          case Some(k) =>
            FirstIndexPrefix(queue, m, k);
            RouteFromQueue(m, buffer, queue, closed, k);
            RemoveAtRight(buffer, queue, k);
          case None =>
            RouteExhausted(m, buffer, queue, closed);
        }
    }
  }

  lemma RemoveAtLeft<T>(s: seq<T>, t: seq<T>, i: nat)
    requires i < |s|
    ensures RemoveAt(s, i) + t == RemoveAt(s + t, i) && (s + t)[i] == s[i]
  {
    assert (s + t)[..i] == s[..i];
    assert (s + t)[i + 1..] == s[i + 1..] + t;
  }

  lemma RemoveAtRight<T>(s: seq<T>, t: seq<T>, k: nat)
    requires k < |t|
    ensures s + t[..k] + t[k + 1..] == RemoveAt(s + t, |s| + k) && (s + t)[|s| + k] == t[k]
  {
    assert (s + t)[..|s| + k] == s + t[..k];
    assert (s + t)[|s| + k + 1..] == t[k + 1..];
  }

  /** Nothing of type `m` comes before the first match. */
  lemma FirstIndexPrefix<V>(s: seq<MessageHandle<V>>, m: TypeTag, k: nat)
    requires FirstIndex(s, m) == Some(k)
    ensures FirstIndex(s[..k], m).None?
  {
    assert forall j :: 0 <= j < k ==> s[..k][j] == s[j];
    FirstIndexNone(s[..k], m);
  }

  /** Nothing is lost or duplicated: the envelopes before a `recv` are those
      after it plus the one handed out. */
  lemma RouteConserves<V>(m: TypeTag, buffer: seq<MessageHandle<V>>, queue: seq<MessageHandle<V>>, closed: bool)
    ensures var R := Route(m, buffer, queue, closed);
      multiset(buffer + queue) ==
        multiset(R.buffer + R.queue) + (if R.outcome.Ready? && R.outcome.value.Ok? then multiset{R.outcome.value.value} else multiset{})
  {
    RouteTakesFirst(m, buffer, queue, closed);
    var all := buffer + queue;
    if FirstIndex(all, m).Some? {
      RemoveAtMultiset(all, FirstIndex(all, m).value);
    }
  }

  /** First in, first out per type: `recv::<m>` returns the oldest envelope of
      type `m` and leaves the others of that type, and all envelopes of other
      types, in the order they had. */
  lemma RouteInTypeOrder<V>(m: TypeTag, buffer: seq<MessageHandle<V>>, queue: seq<MessageHandle<V>>, closed: bool)
    ensures var all, R := buffer + queue, Route(m, buffer, queue, closed);
      && (OfType(all, m) != [] ==>
            R.outcome == Ready(Ok(OfType(all, m)[0])) && OfType(R.buffer + R.queue, m) == OfType(all, m)[1..])
      && (OfType(all, m) == [] ==> !(R.outcome.Ready? && R.outcome.value.Ok?) && R.buffer + R.queue == all)
      && forall n :: n != m ==> OfType(R.buffer + R.queue, n) == OfType(all, n)
  {
    var all := buffer + queue;
    RouteTakesFirst(m, buffer, queue, closed);
    OfTypeHead(all, m);
    if FirstIndex(all, m).Some? {
      OfTypeRemoveFirst(all, m, FirstIndex(all, m).value);
    }
  }

  /** The envelopes handed out by `n` consecutive `recv::<m>` calls, stopping at
      the first call that does not hand one out. */
  ghost function Drain<V>(m: TypeTag, buffer: seq<MessageHandle<V>>, queue: seq<MessageHandle<V>>, closed: bool, n: nat): (r: seq<MessageHandle<V>>)
    decreases n
  {
    var R := Route(m, buffer, queue, closed);
    if n == 0 || !(R.outcome.Ready? && R.outcome.value.Ok?) then []
    else [R.outcome.value.value] + Drain(m, R.buffer, R.queue, closed, n - 1)
  }

  /** Repeated `recv::<m>` calls return the envelopes of type `m` in the order
      they were sent. */
  lemma {:induction false} DrainInTypeOrder<V>(m: TypeTag, buffer: seq<MessageHandle<V>>, queue: seq<MessageHandle<V>>, closed: bool, n: nat)
    ensures var xs := OfType(buffer + queue, m);
      Drain(m, buffer, queue, closed, n) == xs[..if n <= |xs| then n else |xs|]
    decreases n
  {
    var xs := OfType(buffer + queue, m);
    var k := if n <= |xs| then n else |xs|;
    if n == 0 {
    } else if xs == [] {
      DrainNone(m, buffer, queue, closed, n);
    } else {
      var R := Route(m, buffer, queue, closed);
      assert R.outcome == Ready(Ok(xs[0])) && OfType(R.buffer + R.queue, m) == xs[1..] by {
        RouteInTypeOrder(m, buffer, queue, closed);
      }
      var rest := Drain(m, R.buffer, R.queue, closed, n - 1);
      assert rest == xs[1..][..k - 1] by {
        DrainInTypeOrder(m, R.buffer, R.queue, closed, n - 1);
      }
      assert Drain(m, buffer, queue, closed, n) == [xs[0]] + rest;
      PrefixAfterHead(xs, k);
    }
  }

  /** With no envelope of type `m` about, `recv::<m>` hands nothing out. */
  lemma DrainNone<V>(m: TypeTag, buffer: seq<MessageHandle<V>>, queue: seq<MessageHandle<V>>, closed: bool, n: nat)
    requires OfType(buffer + queue, m) == []
    ensures Drain(m, buffer, queue, closed, n) == []
  {
    RouteInTypeOrder(m, buffer, queue, closed);
  }

  lemma PrefixAfterHead<T>(xs: seq<T>, k: nat)
    requires 0 < k <= |xs|
    ensures [xs[0]] + xs[1..][..k - 1] == xs[..k]
  {
  }

  /** Sending appends to the type filter of the envelope's own type only. */
  lemma SendKeepsTypeOrder<V>(buffer: seq<MessageHandle<V>>, queue: seq<MessageHandle<V>>, e: MessageHandle<V>, m: TypeTag)
    ensures OfType(buffer + (queue + [e]), m) == OfType(buffer + queue, m) + (if IsType(e, m) then [e] else [])
  {
    assert buffer + (queue + [e]) == (buffer + queue) + [e];
    OfTypeConcat(buffer + queue, [e], m);
    assert [e][1..] == [];
  }
}
