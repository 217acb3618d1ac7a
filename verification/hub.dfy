/** The broadcaster: the `AsyncListeners` class of src/index.ts.

    The hub keeps the ordered list of live listeners (the array the source
    iterates) and, separately, every listener it ever created, because a
    consumer keeps pulling from its listener after that listener has left
    the live list. Listener handles are ids drawn from a counter.
 */
module Hub {
  import L = Listener

  type ListenerId = nat

  datatype Hub<T> = Hub(live: seq<ListenerId>, subs: map<ListenerId, L.Listener<T>>, nextId: ListenerId)

  /** A transition together with the waiters it resolved. */
  datatype HubStep<T> = HubStep(hub: Hub<T>, resolved: seq<L.Resolution<T>>)

  datatype Listened<T> = Listened(hub: Hub<T>, id: ListenerId)

  datatype Pulled<T> = Pulled(hub: Hub<T>, reply: L.Reply<T>)

  predicate Distinct(s: seq<ListenerId>) {
    forall i, j | 0 <= i < j < |s| :: s[i] != s[j]
  }

  /** Live listeners are distinct and known, ids are below the counter, and
      every listener keeps its queue and waiters apart. */
  predicate Valid<T>(h: Hub<T>) {
    && Distinct(h.live)
    && (forall id | id in h.live :: id in h.subs)
    && (forall id | id in h.subs :: id < h.nextId && L.Valid(h.subs[id]))
  }

  lemma DistinctAppend(s: seq<ListenerId>, x: ListenerId)
    requires Distinct(s) && x !in s
    ensures Distinct(s + [x])
  {
    forall i, j | 0 <= i < j < |s + [x]| ensures (s + [x])[i] != (s + [x])[j] {
      assert (s + [x])[i] == s[i];
      if j < |s| { assert (s + [x])[j] == s[j]; }
    }
  }

  /** Splicing one position out of a list of distinct ids. */
  lemma SpliceDistinct(live: seq<ListenerId>, i: nat)
    requires Distinct(live) && i < |live|
    ensures Distinct(live[..i] + live[i + 1..])
    ensures live[i] !in live[..i] + live[i + 1..]
  {
    var r := live[..i] + live[i + 1..];
    forall a, b | 0 <= a < b < |r| ensures r[a] != r[b] {
      var a', b' := if a < i then a else a + 1, if b < i then b else b + 1;
      assert r[a] == live[a'] && r[b] == live[b'];
    }
    forall k | 0 <= k < |r| ensures r[k] != live[i] {
      var k' := if k < i then k else k + 1;
      assert r[k] == live[k'];
    }
  }

  /** `new AsyncListeners()`: no listeners at all. */
  function Empty<T>(): (h: Hub<T>)
    ensures Valid(h) && h.live == [] && h.subs == map[]
  {
    Hub([], map[], 0)
  }

  /** The resolutions a listener call performs on each of `ids`, in list order,
      each taken on that listener's state in `subs`. */
  function Gather<T>(ids: seq<ListenerId>, subs: map<ListenerId, L.Listener<T>>, op: L.Op<T>): seq<L.Resolution<T>>
    requires forall id | id in ids :: id in subs
    decreases |ids|
  {
    if ids == [] then [] else L.Apply(subs[ids[0]], op).resolved + Gather(ids[1..], subs, op)
  }

  /** Changing a listener outside `ids` does not change what they resolve. */
  lemma {:induction false} GatherFrame<T>(ids: seq<ListenerId>, subs: map<ListenerId, L.Listener<T>>, x: ListenerId, l: L.Listener<T>, op: L.Op<T>)
    requires (forall id | id in ids :: id in subs) && x !in ids
    ensures Gather(ids, subs[x := l], op) == Gather(ids, subs, op)
    decreases |ids|
  {
    if ids != [] {
      assert x !in ids[1..] by {
        forall k | 0 <= k < |ids[1..]| ensures ids[1..][k] != x {
          assert ids[1..][k] == ids[k + 1];
        }
      }
      GatherFrame(ids[1..], subs, x, l, op);
    }
  }

  /** A call that resolves nothing on any of `ids` resolves nothing on all of them. */
  lemma {:induction false} GatherNone<T>(ids: seq<ListenerId>, subs: map<ListenerId, L.Listener<T>>, op: L.Op<T>)
    requires forall id | id in ids :: id in subs && L.Apply(subs[id], op).resolved == []
    ensures Gather(ids, subs, op) == []
    decreases |ids|
  {
    if ids != [] {
      assert ids[0] in ids;
      assert forall id | id in ids[1..] :: id in ids;
      GatherNone(ids[1..], subs, op);
    }
  }

  /** Applies a listener call to each of `ids` in turn (the `for ... of`
      loops of `push` and `close`), collecting the resolutions. */
  function FanOut<T>(ids: seq<ListenerId>, subs: map<ListenerId, L.Listener<T>>, op: L.Op<T>)
    : (r: (map<ListenerId, L.Listener<T>>, seq<L.Resolution<T>>))
    requires Distinct(ids) && forall id | id in ids :: id in subs
    ensures r.0.Keys == subs.Keys
    ensures forall id | id in subs ::
      r.0[id] == if id in ids then L.Apply(subs[id], op).state else subs[id]
    ensures forall x | x in r.1 :: exists id | id in ids :: x in L.Apply(subs[id], op).resolved
    ensures forall id, x | id in ids && x in L.Apply(subs[id], op).resolved :: x in r.1
    decreases |ids|
  {
    if ids == [] then (subs, [])
    else
      var s := L.Apply(subs[ids[0]], op);
      DistinctTail(ids);
      var rest := FanOut(ids[1..], subs[ids[0] := s.state], op);
      (rest.0, s.resolved + rest.1)
  }

  lemma DistinctTail(ids: seq<ListenerId>)
    requires Distinct(ids) && ids != []
    ensures Distinct(ids[1..]) && ids[0] !in ids[1..]
  {
    forall k | 0 <= k < |ids[1..]| ensures ids[1..][k] != ids[0] {
      assert ids[1..][k] == ids[k + 1];
    }
    forall i, j | 0 <= i < j < |ids[1..]| ensures ids[1..][i] != ids[1..][j] {
      assert ids[1..][i] == ids[i + 1] && ids[1..][j] == ids[j + 1];
    }
  }

  /** The fan-out logs exactly each listed listener's own resolutions, in
      list order. */
  lemma {:induction false} FanOutLog<T>(ids: seq<ListenerId>, subs: map<ListenerId, L.Listener<T>>, op: L.Op<T>)
    requires Distinct(ids) && forall id | id in ids :: id in subs
    ensures FanOut(ids, subs, op).1 == Gather(ids, subs, op)
    decreases |ids|
  {
    if ids != [] {
      var s := L.Apply(subs[ids[0]], op);
      DistinctTail(ids);
      FanOutLog(ids[1..], subs[ids[0] := s.state], op);
      GatherFrame(ids[1..], subs, ids[0], s.state, op);
    }
  }

  /** The listener states alone after a fan-out, for callers that do not
      follow the resolutions. */
  function Broadcast<T>(ids: seq<ListenerId>, subs: map<ListenerId, L.Listener<T>>, op: L.Op<T>)
    : (r: map<ListenerId, L.Listener<T>>)
    requires Distinct(ids) && forall id | id in ids :: id in subs
    ensures r.Keys == subs.Keys
    ensures forall id | id in subs :: r[id] == if id in ids then L.Apply(subs[id], op).state else subs[id]
  {
    FanOut(ids, subs, op).0
  }

  /** `push`: exactly the live listeners receive the value; listeners that
      left the live list, and the list itself, are untouched. */
  function Push<T>(h: Hub<T>, v: T): (r: HubStep<T>)
    requires Valid(h)
    ensures Valid(r.hub)
    ensures r.hub.live == h.live && r.hub.nextId == h.nextId && r.hub.subs.Keys == h.subs.Keys
    ensures forall id | id in h.subs ::
      r.hub.subs[id] == if id in h.live then L.Push(h.subs[id], v).state else h.subs[id]
    ensures forall x | x in r.resolved :: x.result == L.Value(v)
    ensures forall id, x | id in h.live && x in L.Push(h.subs[id], v).resolved :: x in r.resolved
    ensures forall x | x in r.resolved :: exists id | id in h.live :: x in L.Push(h.subs[id], v).resolved
    ensures r.resolved == Gather(h.live, h.subs, L.PushOp(v))
    ensures h.live == [] ==> r == HubStep(h, [])
  {
    var f := FanOut(h.live, h.subs, L.PushOp(v));
    FanOutLog(h.live, h.subs, L.PushOp(v));
    HubStep(h.(subs := f.0), f.1)
  }

  /** `close`: exactly the live listeners are closed and every waiter they
      hold gets the terminal result. Nothing marks the hub itself closed. */
  function Close<T>(h: Hub<T>): (r: HubStep<T>)
    requires Valid(h)
    ensures Valid(r.hub)
    ensures r.hub.live == h.live && r.hub.nextId == h.nextId && r.hub.subs.Keys == h.subs.Keys
    ensures forall id | id in h.subs ::
      r.hub.subs[id] == if id in h.live then L.Close(h.subs[id]).state else h.subs[id]
    ensures forall x | x in r.resolved :: x.result == L.Done
    ensures forall id, x | id in h.live && x in L.Close(h.subs[id]).resolved :: x in r.resolved
    ensures forall x | x in r.resolved :: exists id | id in h.live :: x in L.Close(h.subs[id]).resolved
    ensures r.resolved == Gather(h.live, h.subs, L.CloseOp)
  {
    var f := FanOut(h.live, h.subs, L.CloseOp);
    FanOutLog(h.live, h.subs, L.CloseOp);
    HubStep(h.(subs := f.0), f.1)
  }

  /** Closing the broadcaster twice is the same as closing it once: the
      second close resolves nothing and changes no listener. */
  lemma CloseTwice<T>(h: Hub<T>)
    requires Valid(h)
    ensures Close(Close(h).hub) == HubStep(Close(h).hub, [])
  {
    var h1 := Close(h).hub;
    forall id | id in h1.live
      ensures L.Apply(h1.subs[id], L.CloseOp).resolved == [] && L.Close(h1.subs[id]).state == h1.subs[id]
    {
      L.CloseTwice(h.subs[id]);
    }
    GatherNone(h1.live, h1.subs, L.CloseOp);
  }

  /** `listen`: a new, open, empty listener joins the end of the live list;
      it shares no backlog with earlier pushes. */
  function Listen<T>(h: Hub<T>): (r: Listened<T>)
    requires Valid(h)
    ensures Valid(r.hub)
    ensures r.id !in h.subs && r.id !in h.live
    ensures r.hub.live == h.live + [r.id]
    ensures r.hub.subs == h.subs[r.id := L.Fresh()]
    ensures r.hub.nextId > h.nextId
  {
    DistinctAppend(h.live, h.nextId);
    Listened(Hub(h.live + [h.nextId], h.subs[h.nextId := L.Fresh()], h.nextId + 1), h.nextId)
  }

  /** `Array.prototype.indexOf`: the first position of `x`, or -1. */
  function IndexOf(s: seq<ListenerId>, x: ListenerId): (i: int)
    ensures i == -1 <==> x !in s
    ensures i != -1 ==> 0 <= i < |s| && s[i] == x && x !in s[..i]
  {
    if s == [] then -1
    else if s[0] == x then 0
    else
      var i := IndexOf(s[1..], x);
      assert s[1..][..if i == -1 then 0 else i] == s[1..1 + if i == -1 then 0 else i];
      if i == -1 then -1 else i + 1
  }

  /** The remover handed to each listener: splices it out of the live list
      when present, and leaves the list alone when `indexOf` says -1. */
  function Remove(live: seq<ListenerId>, id: ListenerId): (r: seq<ListenerId>)
    ensures id !in live ==> r == live
    ensures Distinct(live) ==> Distinct(r) && id !in r
    ensures forall x | x != id :: x in r <==> x in live
    ensures id in live ==> exists k | 0 <= k <= |r| :: live == r[..k] + [id] + r[k..]
  {
    var i := IndexOf(live, id);
    if i != -1 then
      var r := live[..i] + live[i + 1..];
      assert live == r[..i] + [id] + r[i..] by {
        assert r[..i] == live[..i] && r[i..] == live[i + 1..];
      }
      assert Distinct(live) ==> Distinct(r) && id !in r by {
        if Distinct(live) { SpliceDistinct(live, i); }
      }
      assert forall x | x != id :: x in r <==> x in live by {
        forall x | x != id ensures x in r <==> x in live {
          assert x in live <==> x in live[..i] || x in live[i + 1..] by {
            assert live == live[..i] + [id] + live[i + 1..];
          }
        }
      }
      r
    else live
  }

  /** The iterator's `return` on listener `id`: the remover takes it out of
      the live list, it is marked closed, and the caller gets the terminal
      result. Other listeners keep their state, liveness and relative order. */
  function Return<T>(h: Hub<T>, id: ListenerId): (r: Pulled<T>)
    requires Valid(h) && id in h.subs
    ensures Valid(r.hub)
    ensures r.reply == L.Now(L.Done)
    ensures r.hub.live == Remove(h.live, id) && id !in r.hub.live
    ensures r.hub.subs.Keys == h.subs.Keys && r.hub.nextId == h.nextId
    ensures r.hub.subs[id].closed
    ensures r.hub.subs[id].queued == h.subs[id].queued && r.hub.subs[id].waiting == h.subs[id].waiting
    ensures forall j | j in h.subs && j != id :: r.hub.subs[j] == h.subs[j]
  {
    var s := L.Return(h.subs[id]);
    Pulled(Hub(Remove(h.live, id), h.subs[id := s.state], h.nextId), s.reply)
  }

  /** The iterator's `next` on listener `id`; no other listener changes. */
  function Next<T>(h: Hub<T>, id: ListenerId, w: L.WaiterId): (r: Pulled<T>)
    requires Valid(h) && id in h.subs
    ensures Valid(r.hub)
    ensures r.hub.live == h.live && r.hub.nextId == h.nextId
    ensures r.hub.subs == h.subs[id := L.Next(h.subs[id], w).state]
    ensures r.reply == L.Next(h.subs[id], w).reply
  {
    var s := L.Next(h.subs[id], w);
    Pulled(h.(subs := h.subs[id := s.state]), s.reply)
  }

  /** One call on the hub, as seen from outside. A `next` or `return` names
      the listener it is made on. */
  datatype HubOp<T> = HPush(v: T) | HClose | HListen | HNext(id: ListenerId, w: L.WaiterId) | HReturn(id: ListenerId)

  /** Applies one call; a call on a handle the hub never issued does nothing. */
  function Apply<T>(h: Hub<T>, op: HubOp<T>): (r: Hub<T>)
    requires Valid(h)
    ensures Valid(r) && h.subs.Keys <= r.subs.Keys
  {
    match op
    case HPush(v) => h.(subs := Broadcast(h.live, h.subs, L.PushOp(v)))
    case HClose => h.(subs := Broadcast(h.live, h.subs, L.CloseOp))
    case HListen => Listen(h).hub
    case HNext(id, w) => if id in h.subs then Next(h, id, w).hub else h
    case HReturn(id) => if id in h.subs then Return(h, id).hub else h
  }

  function RunOps<T>(h: Hub<T>, ops: seq<HubOp<T>>): (r: Hub<T>)
    requires Valid(h)
    ensures Valid(r) && h.subs.Keys <= r.subs.Keys
    decreases |ops|
  {
    if ops == [] then h else RunOps(Apply(h, ops[0]), ops[1..])
  }

  /** The listener call that one hub call makes on listener `id`, if any:
      a push or close when `id` is live, and its own pulls and returns. */
  function SeenBy<T>(h: Hub<T>, op: HubOp<T>, id: ListenerId): seq<L.Op<T>> {
    match op
    case HPush(v) => if id in h.live then [L.PushOp(v)] else []
    case HClose => if id in h.live then [L.CloseOp] else []
    case HListen => []
    case HNext(j, w) => if j == id then [L.NextOp(w)] else []
    case HReturn(j) => if j == id then [L.ReturnOp] else []
  }

  /** The calls listener `id` sees during a run of hub calls. */
  function Seen<T>(h: Hub<T>, ops: seq<HubOp<T>>, id: ListenerId): seq<L.Op<T>>
    requires Valid(h)
    decreases |ops|
  {
    if ops == [] then [] else SeenBy(h, ops[0], id) + Seen(Apply(h, ops[0]), ops[1..], id)
  }

  /** One hub call acts on an existing listener exactly as the call it sees. */
  lemma ApplyProjects<T>(h: Hub<T>, op: HubOp<T>, id: ListenerId)
    requires Valid(h) && id in h.subs
    ensures Apply(h, op).subs[id] == L.RunOps(h.subs[id], SeenBy(h, op, id)).state
  {
    var l := h.subs[id];
    match op
    case HPush(v) =>
      if id in h.live {
        assert L.RunOps(l, [L.PushOp(v)]).state == L.Apply(l, L.PushOp(v)).state;
      }
    case HClose =>
      if id in h.live {
        assert L.RunOps(l, [L.CloseOp]).state == L.Apply(l, L.CloseOp).state;
      }
    case HListen =>
    case HNext(j, w) =>
      if j == id {
        assert L.RunOps(l, [L.NextOp(w)]).state == L.Apply(l, L.NextOp(w)).state;
      }
    case HReturn(j) =>
      if j == id {
        assert L.RunOps(l, [L.ReturnOp]).state == L.Apply(l, L.ReturnOp).state;
      }
  }

  /** Per-listener view of the broadcaster: after any run of hub calls, a
      listener is in exactly the state it would reach by receiving, in order,
      the pushes and closes made while it was live and its own pulls and
      returns. In particular other listeners' calls never touch it. */
  lemma {:induction false} Projection<T>(h: Hub<T>, ops: seq<HubOp<T>>, id: ListenerId)
    requires Valid(h) && id in h.subs
    ensures RunOps(h, ops).subs[id] == L.RunOps(h.subs[id], Seen(h, ops, id)).state
    decreases |ops|
  {
    if ops != [] {
      var h' := Apply(h, ops[0]);
      ApplyProjects(h, ops[0], id);
      Projection(h', ops[1..], id);
      L.RunOpsAppend(h.subs[id], SeenBy(h, ops[0], id), Seen(h', ops[1..], id));
    }
  }

  /** Calls a consumer makes on its own listener: pulls and returns. */
  predicate OnlyPulls<T>(ops: seq<L.Op<T>>) {
    forall i | 0 <= i < |ops| :: ops[i].NextOp? || ops[i].ReturnOp?
  }

  lemma OnlyPullsAppend<T>(a: seq<L.Op<T>>, b: seq<L.Op<T>>)
    requires OnlyPulls(a) && OnlyPulls(b)
    ensures OnlyPulls(a + b)
  {
    forall i | 0 <= i < |a + b| ensures (a + b)[i].NextOp? || (a + b)[i].ReturnOp? {
      if i < |a| { assert (a + b)[i] == a[i]; } else { assert (a + b)[i] == b[i - |a|]; }
    }
  }

  /** No hub call puts a listener that left the live list back on it. */
  lemma ApplyKeepsRemoved<T>(h: Hub<T>, op: HubOp<T>, id: ListenerId)
    requires Valid(h) && id in h.subs && id !in h.live
    ensures id !in Apply(h, op).live
    ensures OnlyPulls(SeenBy(h, op, id))
  {
    match op
    case HListen => assert id != Listen(h).id;
    case HReturn(j) =>
      if j in h.subs {
        assert forall x | x != j :: x in Remove(h.live, j) <==> x in h.live;
      }
    case HPush(v) =>
    case HClose =>
    case HNext(j, w) =>
  }

  /** Early termination is permanent: a listener that has left the live list
      never rejoins it, so from then on it sees no push and no close, only
      its own pulls and returns. */
  lemma {:induction false} RemovedStaysRemoved<T>(h: Hub<T>, ops: seq<HubOp<T>>, id: ListenerId)
    requires Valid(h) && id in h.subs && id !in h.live
    ensures id !in RunOps(h, ops).live
    ensures OnlyPulls(Seen(h, ops, id))
    decreases |ops|
  {
    if ops != [] {
      var h' := Apply(h, ops[0]);
      ApplyKeepsRemoved(h, ops[0], id);
      RemovedStaysRemoved(h', ops[1..], id);
      assert RunOps(h, ops) == RunOps(h', ops[1..]);
      assert Seen(h, ops, id) == SeenBy(h, ops[0], id) + Seen(h', ops[1..], id);
      OnlyPullsAppend(SeenBy(h, ops[0], id), Seen(h', ops[1..], id));
    }
  }

  /** Pushes each value in turn (the flush loop of the channel adapter). */
  function PushAll<T>(h: Hub<T>, vs: seq<T>): (r: HubStep<T>)
    requires Valid(h)
    ensures Valid(r.hub)
    ensures r.hub.live == h.live && r.hub.nextId == h.nextId && r.hub.subs.Keys == h.subs.Keys
    ensures forall x | x in r.resolved :: x.result.Value? && x.result.value in vs
    decreases |vs|
  {
    if vs == [] then HubStep(h, [])
    else
      var s := Push(h, vs[0]);
      var rest := PushAll(s.hub, vs[1..]);
      HubStep(rest.hub, s.resolved + rest.resolved)
  }

  lemma PushSingle<T>(h: Hub<T>, v: T, id: ListenerId)
    requires Valid(h) && h.live == [id]
    ensures Push(h, v).hub.live == [id]
    ensures Push(h, v).hub.subs[id] == L.Apply(h.subs[id], L.PushOp(v)).state
    ensures Push(h, v).resolved == L.Apply(h.subs[id], L.PushOp(v)).resolved
  {
    assert [id][1..] == [];
    assert Gather([id], h.subs, L.PushOp(v)) == L.Apply(h.subs[id], L.PushOp(v)).resolved + Gather([], h.subs, L.PushOp(v));
  }

  /** With a single live listener, a sequence of pushes resolves exactly what
      that listener resolves when it receives them. */
  lemma {:induction false} PushAllSingle<T>(h: Hub<T>, vs: seq<T>, id: ListenerId)
    requires Valid(h) && h.live == [id]
    ensures PushAll(h, vs).resolved == L.RunOps(h.subs[id], L.PushOps(vs)).log
    decreases |vs|
  {
    if vs != [] {
      var s := Push(h, vs[0]);
      PushSingle(h, vs[0], id);
      PushAllFirst(h, vs);
      PushAllSingle(s.hub, vs[1..], id);
      PushOpsFirst(vs);
      L.RunOpsFirst(h.subs[id], L.PushOps(vs));
    }
  }

  lemma PushAllFirst<T>(h: Hub<T>, vs: seq<T>)
    requires Valid(h) && vs != []
    ensures PushAll(h, vs).hub == PushAll(Push(h, vs[0]).hub, vs[1..]).hub
    ensures PushAll(h, vs).resolved == Push(h, vs[0]).resolved + PushAll(Push(h, vs[0]).hub, vs[1..]).resolved
  {
  }

  lemma PushOpsFirst<T>(vs: seq<T>)
    requires vs != []
    ensures L.PushOps(vs)[0] == L.PushOp(vs[0]) && L.PushOps(vs)[1..] == L.PushOps(vs[1..])
  {
  }

  /** A sequence of pushes reaches one listener as that same sequence when
      it is live, and not at all otherwise. */
  lemma {:induction false} PushAllReaches<T>(h: Hub<T>, vs: seq<T>, id: ListenerId)
    requires Valid(h) && id in h.subs
    ensures PushAll(h, vs).hub.subs[id]
      == if id in h.live then L.RunOps(h.subs[id], L.PushOps(vs)).state else h.subs[id]
    decreases |vs|
  {
    if vs != [] {
      var h' := Push(h, vs[0]).hub;
      PushAllFirst(h, vs);
      PushAllReaches(h', vs[1..], id);
      if id in h.live {
        PushOpsFirst(vs);
        assert h'.subs[id] == L.Apply(h.subs[id], L.PushOps(vs)[0]).state;
      }
    }
  }

  /** A sequence of pushes reaches every live listener as that same sequence,
      and leaves every other listener alone. */
  lemma {:induction false} PushAllFansOut<T>(h: Hub<T>, vs: seq<T>)
    requires Valid(h)
    ensures forall id | id in h.subs ::
      PushAll(h, vs).hub.subs[id]
        == if id in h.live then L.RunOps(h.subs[id], L.PushOps(vs)).state else h.subs[id]
  {
    forall id | id in h.subs
      ensures PushAll(h, vs).hub.subs[id]
        == if id in h.live then L.RunOps(h.subs[id], L.PushOps(vs)).state else h.subs[id]
    {
      PushAllReaches(h, vs, id);
    }
  }
}
