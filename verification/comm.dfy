/** The channel adapter: the `CommImpl` class of src/index.ts.

    The adapter sits between a kernel comm (the transport) and the hub. Until
    the consumer first asks for `messages`, inbound messages are kept in a
    buffer; the first access registers a listener, marks the adapter open and
    schedules a flush of the buffer into the hub. The flush is a microtask in
    the source; here it is an explicit step, `Flush`, which may run once it
    has been scheduled. The transport itself is not modelled: inbound
    messages and the inbound close are the inputs, and the local `close()` is
    modelled by its effect once the transport reports completion.
 */
module Comm {
  import L = Listener
  import H = Hub

  type Byte = b: int | 0 <= b < 256

  type Bytes = seq<Byte>

  /** The message payload (`content.data`); the adapter never inspects it. */
  type Json = string

  datatype Option<T> = None | Some(value: T)

  /** A binary buffer as the transport hands it over: a typed view onto part
      of an underlying buffer, or a whole raw buffer. */
  datatype RawBuffer = View(buffer: Bytes, byteOffset: nat, byteLength: nat) | Raw(bytes: Bytes)

  /** A view lies inside its buffer (typed arrays guarantee it). */
  predicate InBounds(b: RawBuffer) {
    b.View? ==> b.byteOffset + b.byteLength <= |b.buffer|
  }

  /** An inbound comm message: payload plus optional buffers. */
  datatype Inbound = Inbound(data: Json, buffers: Option<seq<RawBuffer>>)

  predicate WellFormed(m: Inbound) {
    m.buffers.Some? ==> forall i | 0 <= i < |m.buffers.value| :: InBounds(m.buffers.value[i])
  }

  /** A message as consumers see it (`CommMessage`), buffers always present. */
  datatype Message = Message(data: Json, buffers: seq<Bytes>)

  /** The bytes one buffer stands for: a view's window, or all of a raw buffer. */
  function BytesOf(b: RawBuffer): (r: Bytes)
    requires InBounds(b)
    ensures b.View? ==>
      |r| == b.byteLength && forall k | 0 <= k < |r| :: r[k] == b.buffer[b.byteOffset + k]
    ensures b.Raw? ==> r == b.bytes
  {
    match b
    case View(buffer, offset, length) => buffer[offset..offset + length]
    case Raw(bytes) => bytes
  }

  function ConvertEach(bs: seq<RawBuffer>): (r: seq<Bytes>)
    requires forall i | 0 <= i < |bs| :: InBounds(bs[i])
    ensures |r| == |bs| && forall i | 0 <= i < |r| :: r[i] == BytesOf(bs[i])
    decreases |bs|
  {
    if bs == [] then [] else [BytesOf(bs[0])] + ConvertEach(bs[1..])
  }

  /** Buffer normalisation in `onMsg`: the result always exists, is empty when
      the message carries no buffers, and otherwise holds one byte sequence
      per buffer, in order. */
  function Normalize(bs: Option<seq<RawBuffer>>): (r: seq<Bytes>)
    requires bs.Some? ==> forall i | 0 <= i < |bs.value| :: InBounds(bs.value[i])
    ensures bs.None? ==> r == []
    ensures bs.Some? ==> |r| == |bs.value| && forall i | 0 <= i < |r| :: r[i] == BytesOf(bs.value[i])
  {
    match bs
    case None => []
    case Some(list) => ConvertEach(list)
  }

  /** What `onMsg` turns an inbound message into. */
  function Receive(m: Inbound): Message
    requires WellFormed(m)
  {
    Message(m.data, Normalize(m.buffers))
  }

  function ReceiveAll(ms: seq<Inbound>): seq<Message>
    requires forall i | 0 <= i < |ms| :: WellFormed(ms[i])
  {
    seq(|ms|, i requires 0 <= i < |ms| && WellFormed(ms[i]) => Receive(ms[i]))
  }

  datatype Comm = Comm(hub: H.Hub<Message>, buffered: seq<Message>, isOpen: bool, flushPending: bool)

  datatype CommStep = CommStep(comm: Comm, resolved: seq<L.Resolution<Message>>)

  datatype Opened = Opened(comm: Comm, id: H.ListenerId)

  /** Before the first `messages` access there are no listeners; a flush is
      pending only once open; after the flush the buffer stays empty. */
  predicate Valid(c: Comm) {
    && H.Valid(c.hub)
    && (c.flushPending ==> c.isOpen)
    && (!c.isOpen ==> c.hub.subs == map[] && c.hub.live == [])
    && (c.isOpen && !c.flushPending ==> c.buffered == [])
  }

  /** The adapter as its constructor leaves it. */
  function Create(): (c: Comm)
    ensures Valid(c) && !c.isOpen && !c.flushPending && c.buffered == [] && c.hub.subs == map[]
  {
    Comm(H.Empty(), [], false, false)
  }

  /** The inbound-message callback: before opening the message is appended
      to the buffer and nothing reaches the hub; afterwards it is pushed to
      every live listener. */
  function OnMsg(c: Comm, m: Inbound): (r: CommStep)
    requires Valid(c) && WellFormed(m)
    ensures Valid(r.comm)
    ensures r.comm.isOpen == c.isOpen && r.comm.flushPending == c.flushPending
    ensures !c.isOpen ==> r == CommStep(c.(buffered := c.buffered + [Receive(m)]), [])
    ensures c.isOpen ==> r.comm.buffered == c.buffered && r.comm.hub.live == c.hub.live
    ensures r.comm.hub.subs.Keys == c.hub.subs.Keys
    ensures c.isOpen ==> forall id | id in c.hub.subs ::
      r.comm.hub.subs[id]
        == if id in c.hub.live then L.Push(c.hub.subs[id], Receive(m)).state else c.hub.subs[id]
    ensures c.isOpen ==> r.resolved == H.Push(c.hub, Receive(m)).resolved
    ensures forall x | x in r.resolved :: x.result == L.Value(Receive(m))
  {
    var msg := Receive(m);
    if c.isOpen then
      var s := H.Push(c.hub, msg);
      CommStep(c.(hub := s.hub), s.resolved)
    else
      CommStep(c.(buffered := c.buffered + [msg]), [])
  }

  /** Closing the channel: the inbound-close callback, and equally the local
      `close()` once the transport has confirmed. Every live listener is
      closed; the adapter keeps no closed flag of its own, so before the first
      access there is nothing to close and nothing changes. */
  function Close(c: Comm): (r: CommStep)
    requires Valid(c)
    ensures Valid(r.comm)
    ensures r.comm.buffered == c.buffered && r.comm.isOpen == c.isOpen && r.comm.flushPending == c.flushPending
    ensures r.comm.hub.live == c.hub.live && r.comm.hub.subs.Keys == c.hub.subs.Keys
    ensures forall id | id in c.hub.live :: r.comm.hub.subs[id] == L.Close(c.hub.subs[id]).state
    ensures forall id | id in c.hub.subs && id !in c.hub.live :: r.comm.hub.subs[id] == c.hub.subs[id]
    ensures r.resolved == H.Close(c.hub).resolved
    ensures forall x | x in r.resolved :: x.result == L.Done
    ensures forall id, i | id in c.hub.live && 0 <= i < |c.hub.subs[id].waiting| ::
      L.Resolved(c.hub.subs[id].waiting[i], L.Done) in r.resolved
    ensures !c.isOpen ==> r == CommStep(c, [])
  {
    var s := H.Close(c.hub);
    assert forall id, i | id in c.hub.live && 0 <= i < |c.hub.subs[id].waiting| ::
      L.Resolved(c.hub.subs[id].waiting[i], L.Done) in L.Close(c.hub.subs[id]).resolved;
    CommStep(c.(hub := s.hub), s.resolved)
  }

  /** The `messages` accessor: registers a new listener first, then, on the
      first access only, opens the adapter and schedules the flush. */
  function Messages(c: Comm): (r: Opened)
    requires Valid(c)
    ensures Valid(r.comm)
    ensures r.comm.isOpen
    ensures r.id !in c.hub.subs
    ensures r.comm.hub.live == c.hub.live + [r.id]
    ensures r.comm.hub.subs == c.hub.subs[r.id := L.Fresh()]
    ensures r.comm.buffered == c.buffered
    ensures r.comm.flushPending <==> c.flushPending || !c.isOpen
  {
    var l := H.Listen(c.hub);
    if c.isOpen then Opened(c.(hub := l.hub), l.id)
    else Opened(Comm(l.hub, c.buffered, true, true), l.id)
  }

  /** The scheduled flush: every buffered message is pushed, in arrival
      order, to every live listener, and the buffer is cleared. */
  function Flush(c: Comm): (r: CommStep)
    requires Valid(c) && c.flushPending
    ensures Valid(r.comm)
    ensures r.comm.isOpen && !r.comm.flushPending && r.comm.buffered == []
    ensures r.comm.hub.live == c.hub.live && r.comm.hub.subs.Keys == c.hub.subs.Keys
    ensures forall id | id in c.hub.subs ::
      r.comm.hub.subs[id]
        == if id in c.hub.live then L.RunOps(c.hub.subs[id], L.PushOps(c.buffered)).state else c.hub.subs[id]
    ensures r.resolved == H.PushAll(c.hub, c.buffered).resolved
    ensures forall x | x in r.resolved :: x.result.Value? && x.result.value in c.buffered
  {
    var s := H.PushAll(c.hub, c.buffered);
    H.PushAllFansOut(c.hub, c.buffered);
    CommStep(Comm(s.hub, [], true, false), s.resolved)
  }

  /** Inbound messages delivered one after another. */
  function Deliver(c: Comm, ms: seq<Inbound>): (r: Comm)
    requires Valid(c) && forall i | 0 <= i < |ms| :: WellFormed(ms[i])
    ensures Valid(r)
    ensures r.isOpen == c.isOpen && r.flushPending == c.flushPending
    ensures r.hub.subs.Keys == c.hub.subs.Keys && r.hub.live == c.hub.live
    decreases |ms|
  {
    if ms == [] then c else Deliver(OnMsg(c, ms[0]).comm, ms[1..])
  }

  /** Before opening, inbound messages only grow the buffer, in arrival order. */
  lemma {:induction false} BufferedWhileClosed(c: Comm, ms: seq<Inbound>)
    requires Valid(c) && !c.isOpen && forall i | 0 <= i < |ms| :: WellFormed(ms[i])
    ensures Deliver(c, ms) == c.(buffered := c.buffered + ReceiveAll(ms))
    decreases |ms|
  {
    if ms != [] {
      var c' := OnMsg(c, ms[0]).comm;
      BufferedWhileClosed(c', ms[1..]);
      assert ReceiveAll(ms) == [Receive(ms[0])] + ReceiveAll(ms[1..]);
    }
  }

  lemma ReceiveAllFirst(ms: seq<Inbound>)
    requires ms != [] && forall i | 0 <= i < |ms| :: WellFormed(ms[i])
    ensures ReceiveAll(ms)[0] == Receive(ms[0]) && ReceiveAll(ms)[1..] == ReceiveAll(ms[1..])
  {
  }

  lemma OnMsgWhileOpen(c: Comm, m: Inbound)
    requires Valid(c) && c.isOpen && WellFormed(m)
    ensures OnMsg(c, m).comm == c.(hub := H.Push(c.hub, Receive(m)).hub)
  {
  }

  lemma DeliverFirst(c: Comm, ms: seq<Inbound>)
    requires Valid(c) && ms != [] && forall i | 0 <= i < |ms| :: WellFormed(ms[i])
    ensures Deliver(c, ms) == Deliver(OnMsg(c, ms[0]).comm, ms[1..])
  {
  }

  /** Once open, inbound messages are pushed straight to the hub, in arrival order. */
  lemma {:induction false} PushedWhileOpen(c: Comm, ms: seq<Inbound>)
    requires Valid(c) && c.isOpen && forall i | 0 <= i < |ms| :: WellFormed(ms[i])
    ensures Deliver(c, ms).hub == H.PushAll(c.hub, ReceiveAll(ms)).hub
    ensures Deliver(c, ms).buffered == c.buffered
    decreases |ms|
  {
    if ms != [] {
      var c' := OnMsg(c, ms[0]).comm;
      OnMsgWhileOpen(c, ms[0]);
      DeliverFirst(c, ms);
      PushedWhileOpen(c', ms[1..]);
      ReceiveAllFirst(ms);
      H.PushAllFirst(c.hub, ReceiveAll(ms));
    }
  }

  /** The first access followed by the flush hands the whole buffer, in
      order, to the listener that access registered. */
  lemma {:induction false} FirstAccessGetsBuffer(c: Comm)
    requires Valid(c) && !c.isOpen
    ensures var o := Messages(c);
      var f := Flush(o.comm).comm;
      && f.isOpen && !f.flushPending && f.buffered == []
      && f.hub.live == [o.id]
      && f.hub.subs[o.id] == L.Listener(c.buffered, [], false)
  {
    var o := Messages(c);
    assert o.comm.hub.live == [o.id];
    L.PushesAppend(L.Fresh<Message>(), c.buffered);
  }

  /** What a consumer iterating over `messages` meets, seen from its own
      listener: an inbound message, or one of its own `next()` calls. */
  datatype ConsumerOp = Arrive(m: Inbound) | Pull(w: L.WaiterId)

  predicate WellFormedOps(ops: seq<ConsumerOp>) {
    forall i | 0 <= i < |ops| :: ops[i].Arrive? ==> WellFormed(ops[i].m)
  }

  /** A run of `next()` calls only. */
  function Pulls(ws: seq<L.WaiterId>): (ops: seq<ConsumerOp>)
    ensures |ops| == |ws| && WellFormedOps(ops)
  {
    seq(|ws|, i requires 0 <= i < |ws| => Pull(ws[i]))
  }

  /** The messages that arrive during a run, in order. */
  function Arrivals(ops: seq<ConsumerOp>): seq<Message>
    requires WellFormedOps(ops)
    decreases |ops|
  {
    if ops == [] then []
    else (if ops[0].Arrive? then [Receive(ops[0].m)] else []) + Arrivals(ops[1..])
  }

  /** The waiter ids of the `next()` calls of a run, in order. */
  function PullIds(ops: seq<ConsumerOp>): seq<L.WaiterId>
    decreases |ops|
  {
    if ops == [] then [] else (if ops[0].Pull? then [ops[0].w] else []) + PullIds(ops[1..])
  }

  /** One step of the consumer's run: an inbound message goes through
      `onMsg`; a `next()` goes to listener `id` through the hub, and an
      immediate answer is logged as the resolution of its own waiter. */
  function Consume(c: Comm, id: H.ListenerId, op: ConsumerOp): (r: CommStep)
    requires Valid(c) && id in c.hub.subs && (op.Arrive? ==> WellFormed(op.m))
    ensures Valid(r.comm) && r.comm.isOpen == c.isOpen && r.comm.flushPending == c.flushPending
    ensures r.comm.buffered == c.buffered
    ensures r.comm.hub.live == c.hub.live && r.comm.hub.subs.Keys == c.hub.subs.Keys
  {
    match op
    case Arrive(m) => OnMsg(c, m)
    case Pull(w) =>
      var p := H.Next(c.hub, id, w);
      CommStep(c.(hub := p.hub), if p.reply.Now? then [L.Resolved(w, p.reply.result)] else [])
  }

  function RunConsumer(c: Comm, id: H.ListenerId, ops: seq<ConsumerOp>): (r: CommStep)
    requires Valid(c) && id in c.hub.subs && WellFormedOps(ops)
    ensures Valid(r.comm) && r.comm.isOpen == c.isOpen && r.comm.flushPending == c.flushPending
    ensures r.comm.buffered == c.buffered
    ensures r.comm.hub.live == c.hub.live && r.comm.hub.subs.Keys == c.hub.subs.Keys
    decreases |ops|
  {
    if ops == [] then CommStep(c, [])
    else
      var s := Consume(c, id, ops[0]);
      var rest := RunConsumer(s.comm, id, ops[1..]);
      CommStep(rest.comm, s.resolved + rest.resolved)
  }

  /** The listener call a consumer step amounts to. */
  function ListenerOp(op: ConsumerOp): (r: L.Op<Message>)
    requires op.Arrive? ==> WellFormed(op.m)
    ensures r.PushOp? || r.NextOp?
  {
    match op
    case Arrive(m) => L.PushOp(Receive(m))
    case Pull(w) => L.NextOp(w)
  }

  function ListenerOps(ops: seq<ConsumerOp>): (r: seq<L.Op<Message>>)
    requires WellFormedOps(ops)
    ensures |r| == |ops| && L.PushesAndPulls(r)
  {
    seq(|ops|, i requires 0 <= i < |ops| && WellFormedOps(ops) => ListenerOp(ops[i]))
  }

  lemma ListenerOpsFirst(ops: seq<ConsumerOp>)
    requires WellFormedOps(ops) && ops != []
    ensures WellFormedOps(ops[1..])
    ensures ListenerOps(ops)[0] == ListenerOp(ops[0]) && ListenerOps(ops)[1..] == ListenerOps(ops[1..])
  {
    assert forall i | 0 <= i < |ops[1..]| :: ops[1..][i] == ops[i + 1];
  }

  lemma {:induction false} ListenerOpsCount(ops: seq<ConsumerOp>)
    requires WellFormedOps(ops)
    ensures L.Pushed(ListenerOps(ops)) == Arrivals(ops)
    ensures L.Requests(ListenerOps(ops)) == PullIds(ops)
    decreases |ops|
  {
    if ops != [] {
      ListenerOpsFirst(ops);
      ListenerOpsCount(ops[1..]);
    }
  }

  lemma {:induction false} PullsCount(ws: seq<L.WaiterId>)
    ensures Arrivals(Pulls(ws)) == [] && PullIds(Pulls(ws)) == ws
    decreases |ws|
  {
    if ws != [] {
      assert Pulls(ws)[1..] == Pulls(ws[1..]);
      PullsCount(ws[1..]);
    }
  }

  lemma RunConsumerFirst(c: Comm, id: H.ListenerId, ops: seq<ConsumerOp>)
    requires Valid(c) && id in c.hub.subs && WellFormedOps(ops) && ops != []
    ensures var s := Consume(c, id, ops[0]);
      && Valid(s.comm) && id in s.comm.hub.subs && WellFormedOps(ops[1..])
      && RunConsumer(c, id, ops).comm == RunConsumer(s.comm, id, ops[1..]).comm
      && RunConsumer(c, id, ops).resolved == s.resolved + RunConsumer(s.comm, id, ops[1..]).resolved
  {
    assert forall i | 0 <= i < |ops[1..]| :: ops[1..][i] == ops[i + 1];
  }

  /** With the consumer's listener the only live one, a step acts on it
      exactly as the listener call it amounts to. */
  lemma ConsumeSingle(c: Comm, id: H.ListenerId, op: ConsumerOp)
    requires Valid(c) && c.isOpen && c.hub.live == [id] && (op.Arrive? ==> WellFormed(op.m))
    ensures var l := L.Apply(c.hub.subs[id], ListenerOp(op));
      Consume(c, id, op).comm.hub.subs[id] == l.state && Consume(c, id, op).resolved == l.resolved
  {
    if op.Arrive? {
      H.PushSingle(c.hub, Receive(op.m), id);
    }
  }

  lemma {:induction false} RunConsumerSingle(c: Comm, id: H.ListenerId, ops: seq<ConsumerOp>)
    requires Valid(c) && c.isOpen && c.hub.live == [id] && WellFormedOps(ops)
    ensures var l := L.RunOps(c.hub.subs[id], ListenerOps(ops));
      RunConsumer(c, id, ops).comm.hub.subs[id] == l.state && RunConsumer(c, id, ops).resolved == l.log
    decreases |ops|
  {
    if ops != [] {
      var s := Consume(c, id, ops[0]);
      RunConsumerFirst(c, id, ops);
      ConsumeSingle(c, id, ops[0]);
      RunConsumerSingle(s.comm, id, ops[1..]);
      ListenerOpsFirst(ops);
      L.RunOpsFirst(c.hub.subs[id], ListenerOps(ops));
    }
  }

  /** The first consumer's session, its listener's id, and every
      resolution logged on the way. */
  datatype Session = Session(comm: Comm, id: H.ListenerId, log: seq<L.Resolution<Message>>)

  /** A consumer iterating with `for await`: messages `early` arrive before
      the first `messages` access; the consumer makes the `next()` calls
      `before` ahead of the flush; then the flush runs, and later messages
      and later calls interleave as `after` says. */
  function ForAwait(early: seq<Inbound>, before: seq<L.WaiterId>, after: seq<ConsumerOp>): (r: Session)
    requires forall i | 0 <= i < |early| :: WellFormed(early[i])
    requires WellFormedOps(after)
    ensures Valid(r.comm) && r.id in r.comm.hub.subs && r.comm.buffered == [] && !r.comm.flushPending
  {
    var o := Messages(Deliver(Create(), early));
    AfterOpen(o.comm, o.id, before, after)
  }

  /** From the first access on: the early pulls, the flush, then the rest. */
  function AfterOpen(c: Comm, id: H.ListenerId, before: seq<L.WaiterId>, after: seq<ConsumerOp>): (r: Session)
    requires Valid(c) && c.flushPending && id in c.hub.subs && WellFormedOps(after)
    ensures Valid(r.comm) && r.id == id && id in r.comm.hub.subs && r.comm.buffered == [] && !r.comm.flushPending
  {
    var p := RunConsumer(c, id, Pulls(before));
    var f := Flush(p.comm);
    var q := RunConsumer(f.comm, id, after);
    Session(q.comm, id, p.resolved + f.resolved + q.resolved)
  }

  /** The calls the consumer's listener receives in such a session. */
  function ListenerView(early: seq<Inbound>, before: seq<L.WaiterId>, after: seq<ConsumerOp>): seq<L.Op<Message>>
    requires forall i | 0 <= i < |early| :: WellFormed(early[i])
    requires WellFormedOps(after)
  {
    ListenerOps(Pulls(before)) + L.PushOps(ReceiveAll(early)) + ListenerOps(after)
  }

  /** With one live listener, the flush acts on it as the pushes of the buffer. */
  lemma FlushSingle(c: Comm, id: H.ListenerId)
    requires Valid(c) && c.flushPending && c.hub.live == [id]
    ensures var v := L.RunOps(c.hub.subs[id], L.PushOps(c.buffered));
      && Flush(c).comm.hub.live == [id]
      && Flush(c).comm.hub.subs[id] == v.state && Flush(c).resolved == v.log
  {
    H.PushAllSingle(c.hub, c.buffered, id);
  }

  /** Pulls, flush, then a mixed run, all on the only live listener. */
  lemma {:induction false} StagesAreListenerRun(c: Comm, id: H.ListenerId, before: seq<L.WaiterId>, after: seq<ConsumerOp>)
    requires Valid(c) && c.flushPending && c.hub.live == [id] && WellFormedOps(after)
    ensures var s := AfterOpen(c, id, before, after);
      var v := L.RunOps(c.hub.subs[id], ListenerOps(Pulls(before)) + L.PushOps(c.buffered) + ListenerOps(after));
      s.comm.hub.subs[id] == v.state && s.log == v.log
  {
    var p := RunConsumer(c, id, Pulls(before));
    var f := Flush(p.comm);
    var A, B, C := ListenerOps(Pulls(before)), L.PushOps(c.buffered), ListenerOps(after);
    RunConsumerSingle(c, id, Pulls(before));
    FlushSingle(p.comm, id);
    RunConsumerSingle(f.comm, id, after);
    L.RunOpsAppend(c.hub.subs[id], A, B);
    L.RunOpsAppend(c.hub.subs[id], A + B, C);
  }

  /** The session is a run of its listener on exactly those calls. */
  lemma {:induction false} SessionIsListenerRun(early: seq<Inbound>, before: seq<L.WaiterId>, after: seq<ConsumerOp>)
    requires forall i | 0 <= i < |early| :: WellFormed(early[i])
    requires WellFormedOps(after)
    ensures var s := ForAwait(early, before, after);
      var v := L.RunOps(L.Fresh(), ListenerView(early, before, after));
      s.comm.hub.subs[s.id] == v.state && s.log == v.log
  {
    BufferedWhileClosed(Create(), early);
    var o := Messages(Deliver(Create(), early));
    assert o.comm.hub.live == [o.id] && o.comm.hub.subs[o.id] == L.Fresh();
    assert o.comm.buffered == ReceiveAll(early);
    StagesAreListenerRun(o.comm, o.id, before, after);
    assert ForAwait(early, before, after) == AfterOpen(o.comm, o.id, before, after);
  }

  /** What the consumer's listener is pushed and asked for in a session. */
  lemma SessionCounts(early: seq<Inbound>, before: seq<L.WaiterId>, after: seq<ConsumerOp>)
    requires forall i | 0 <= i < |early| :: WellFormed(early[i])
    requires WellFormedOps(after)
    ensures var v := ListenerView(early, before, after);
      && L.PushesAndPulls(v)
      && L.Pushed(v) == ReceiveAll(early) + Arrivals(after)
      && L.Requests(v) == before + PullIds(after)
  {
    var A, B, C := ListenerOps(Pulls(before)), L.PushOps(ReceiveAll(early)), ListenerOps(after);
    L.PushedAppend(A, B);
    L.PushedAppend(A + B, C);
    ListenerOpsCount(Pulls(before));
    ListenerOpsCount(after);
    PullsCount(before);
    L.PushedAllOfPushOps(ReceiveAll(early));
    assert [] + ReceiveAll(early) == ReceiveAll(early);
    assert before + [] == before;
  }

  /** Pre-open buffering and flush, for a consumer that iterates with
      `for await`: before opening nothing reaches the hub; afterwards,
      whatever `next()` calls the consumer makes before the flush and however
      later messages and later calls interleave, its k-th call is answered
      with the k-th message in arrival order (buffered ones first), each
      message once, and the surplus is queued messages or waiting calls. */
  lemma {:induction false} ArrivalOrder(early: seq<Inbound>, before: seq<L.WaiterId>, after: seq<ConsumerOp>)
    requires forall i | 0 <= i < |early| :: WellFormed(early[i])
    requires WellFormedOps(after)
    ensures Deliver(Create(), early) == Create().(buffered := ReceiveAll(early))
    ensures var s := ForAwait(early, before, after);
      var P := ReceiveAll(early) + Arrivals(after);
      var R := before + PullIds(after);
      && |s.log| == (if |P| <= |R| then |P| else |R|)
      && (forall i | 0 <= i < |s.log| :: s.log[i] == L.Resolved(R[i], L.Value(P[i])))
      && s.comm.hub.subs[s.id].queued == P[|s.log|..]
      && s.comm.hub.subs[s.id].waiting == R[|s.log|..]
  {
    BufferedWhileClosed(Create(), early);
    SessionIsListenerRun(early, before, after);
    SessionCounts(early, before, after);
    L.FifoDelivery(ListenerView(early, before, after));
  }

  /** The order above rests on the flush running before the next inbound
      message: a message handled between the first access and the flush
      overtakes every buffered one. */
  lemma {:induction false} InboundBeforeFlushOvertakes(m1: Inbound, m2: Inbound)
    requires WellFormed(m1) && WellFormed(m2)
    ensures var o := Messages(OnMsg(Create(), m1).comm);
      Flush(OnMsg(o.comm, m2).comm).comm.hub.subs[o.id].queued == [Receive(m2), Receive(m1)]
  {
    var o := Messages(OnMsg(Create(), m1).comm);
    var c2 := OnMsg(o.comm, m2).comm;
    assert c2.hub.subs[o.id] == L.Listener([Receive(m2)], [], false);
    assert c2.buffered == [Receive(m1)];
    L.PushesAppend(c2.hub.subs[o.id], [Receive(m1)]);
  }

  /** `close()` is idempotent: closing an already closed channel resolves
      nothing and changes nothing. */
  lemma CloseTwice(c: Comm)
    requires Valid(c)
    ensures Close(Close(c).comm) == CommStep(Close(c).comm, [])
  {
    H.CloseTwice(c.hub);
  }

  /** Closing ends every consumer's iteration: each `next()` it had pending
      gets the terminal result, a later inbound message no longer reaches it,
      and a later `next()` is answered at once with the terminal result. */
  lemma CloseEndsIteration(c: Comm, id: H.ListenerId, m: Inbound, w: L.WaiterId)
    requires Valid(c) && id in c.hub.live && WellFormed(m)
    ensures var r := Close(c);
      && (forall i | 0 <= i < |c.hub.subs[id].waiting| :: L.Resolved(c.hub.subs[id].waiting[i], L.Done) in r.resolved)
      && OnMsg(r.comm, m).comm.hub.subs[id] == r.comm.hub.subs[id]
      && OnMsg(r.comm, m).resolved == []
      && H.Next(r.comm.hub, id, w).reply == L.Now(L.Done)
  {
    var r := Close(c);
    assert c.isOpen;
    H.GatherNone(r.comm.hub.live, r.comm.hub.subs, L.PushOp(Receive(m)));
  }

  /** Closing before the first access is forgotten: the consumer's listener
      gets the buffered messages but is never closed. */
  lemma {:induction false} CloseBeforeFirstAccessIsForgotten(early: seq<Inbound>)
    requires forall i | 0 <= i < |early| :: WellFormed(early[i])
    ensures var o := Messages(Close(Deliver(Create(), early)).comm);
      Flush(o.comm).comm.hub.subs[o.id] == L.Listener(ReceiveAll(early), [], false)
  {
    BufferedWhileClosed(Create(), early);
    var c := Close(Deliver(Create(), early)).comm;
    assert c == Deliver(Create(), early);
    FirstAccessGetsBuffer(c);
  }
}
