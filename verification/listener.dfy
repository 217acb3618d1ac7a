/** One subscriber's pull queue: the `AsyncListener` class of src/index.ts.

    A listener holds the values delivered to it but not yet pulled, the
    pending `next()` calls (each an abstract waiter id standing for a
    promise resolver), and a closed flag. Every operation is a pure state
    transition that also returns the resolutions it performs, so "resolve
    waiter w with r" becomes an output event.
 */
module Listener {

  /** The identity of one pending `next()` promise. */
  type WaiterId = nat

  /** What one iterator step yields: a value, or the terminal result
      (`{ value: undefined, done: true }` in the source). */
  datatype IterResult<T> = Value(value: T) | Done

  /** The settlement of one pending `next()` promise. */
  datatype Resolution<T> = Resolved(waiter: WaiterId, result: IterResult<T>)

  datatype Listener<T> = Listener(queued: seq<T>, waiting: seq<WaiterId>, closed: bool)

  /** The answer to a `next()` call: settled at once, or parked as a waiter. */
  datatype Reply<T> = Now(result: IterResult<T>) | Later

  /** A transition together with the waiters it resolved, oldest first. */
  datatype Step<T> = Step(state: Listener<T>, resolved: seq<Resolution<T>>)

  datatype NextStep<T> = NextStep(state: Listener<T>, reply: Reply<T>)

  /** The queue and the waiters are never both non-empty. */
  predicate Valid<T>(l: Listener<T>) {
    l.queued == [] || l.waiting == []
  }

  /** A listener as `listen()` creates it. */
  function Fresh<T>(): (l: Listener<T>)
    ensures Valid(l) && !l.closed && |l.queued| == 0 && |l.waiting| == 0
  {
    Listener([], [], false)
  }

  /** The values handed out by a sequence of resolutions, terminal results skipped. */
  function Values<T>(rs: seq<Resolution<T>>): seq<T> {
    if rs == [] then []
    else (if rs[0].result.Value? then [rs[0].result.value] else []) + Values(rs[1..])
  }

  /** The waiters a sequence of resolutions settles, in order. */
  function Waiters<T>(rs: seq<Resolution<T>>): seq<WaiterId> {
    seq(|rs|, i requires 0 <= i < |rs| => rs[i].waiter)
  }

  /** The value a reply hands out at once, if any. */
  function Answer<T>(r: Reply<T>): seq<T> {
    if r.Now? && r.result.Value? then [r.result.value] else []
  }

  /** `push`: a closed listener ignores the value; otherwise the oldest waiter
      gets it, or it is queued when nobody waits. */
  function Push<T>(l: Listener<T>, v: T): (s: Step<T>)
    ensures l.closed ==> s == Step(l, [])
    ensures s.state.closed == l.closed
    ensures Valid(l) ==> Valid(s.state)
    ensures Waiters(s.resolved) + s.state.waiting == l.waiting
    ensures !l.closed && Valid(l) ==> Values(s.resolved) + s.state.queued == l.queued + [v]
    ensures forall r | r in s.resolved :: r.result == Value(v)
  {
    if l.closed then Step(l, [])
    else if |l.waiting| > 0 then
      Step(l.(waiting := l.waiting[1..]), [Resolved(l.waiting[0], Value(v))])
    else
      Step(l.(queued := l.queued + [v]), [])
  }

  /** The resolutions settling every waiter of `ws`, in order, with the terminal result. */
  function Terminate<T>(ws: seq<WaiterId>): seq<Resolution<T>> {
    seq(|ws|, i requires 0 <= i < |ws| => Resolved(ws[i], Done))
  }

  /** `close`: every pending waiter gets the terminal result, oldest first;
      queued values stay where they are but can no longer be pulled. */
  function Close<T>(l: Listener<T>): (s: Step<T>)
    ensures s.state.closed && s.state.waiting == [] && s.state.queued == l.queued
    ensures Waiters(s.resolved) == l.waiting
    ensures forall r | r in s.resolved :: r.result == Done
    ensures Valid(s.state)
  {
    Step(Listener(l.queued, [], true), Terminate(l.waiting))
  }

  /** The iterator's `next`: the terminal result when closed (even with values
      queued), else the oldest queued value, else a new waiter. */
  function Next<T>(l: Listener<T>, w: WaiterId): (s: NextStep<T>)
    ensures l.closed ==> s == NextStep(l, Now(Done))
    ensures s.state.closed == l.closed
    ensures Valid(l) ==> Valid(s.state)
    ensures !l.closed ==> (s.reply.Later? <==> l.queued == [])
    ensures !l.closed && l.queued != [] ==>
      s.reply == Now(Value(l.queued[0])) && s.state.queued == l.queued[1..]
    ensures !l.closed ==> Answer(s.reply) + s.state.queued == l.queued
    ensures !l.closed ==> s.state.waiting == l.waiting + (if s.reply.Later? then [w] else [])
    ensures s.reply.Now? ==> s.state.waiting == l.waiting
  {
    if l.closed then NextStep(l, Now(Done))
    else if |l.queued| > 0 then NextStep(l.(queued := l.queued[1..]), Now(Value(l.queued[0])))
    else NextStep(l.(waiting := l.waiting + [w]), Later)
  }

  /** The iterator's `return` (the listener's own part; the hub removes it from
      its live list): marks the listener closed and answers with the terminal
      result, leaving pending waiters unresolved. */
  function Return<T>(l: Listener<T>): (s: NextStep<T>)
    ensures s.reply == Now(Done)
    ensures s.state.closed
    ensures s.state.queued == l.queued && s.state.waiting == l.waiting
  {
    NextStep(l.(closed := true), Now(Done))
  }

  /** One call on a listener, as seen from outside. */
  datatype Op<T> = PushOp(v: T) | NextOp(w: WaiterId) | CloseOp | ReturnOp

  /** Applies one call; a `next` answered at once shows up as a resolution of
      its own waiter id. */
  function Apply<T>(l: Listener<T>, op: Op<T>): Step<T> {
    match op
    case PushOp(v) => Push(l, v)
    case NextOp(w) =>
      var s := Next(l, w);
      Step(s.state, if s.reply.Now? then [Resolved(w, s.reply.result)] else [])
    case CloseOp => Close(l)
    case ReturnOp => Step(Return(l).state, [])
  }

  /** The final state of a run and every resolution it performed, in order. */
  datatype Run<T> = Run(state: Listener<T>, log: seq<Resolution<T>>)

  function RunOps<T>(l: Listener<T>, ops: seq<Op<T>>): Run<T>
    decreases |ops|
  {
    if ops == [] then Run(l, [])
    else
      var s := Apply(l, ops[0]);
      var r := RunOps(s.state, ops[1..]);
      Run(r.state, s.resolved + r.log)
  }

  /** The values pushed by a sequence of calls, in order. */
  function Pushed<T>(ops: seq<Op<T>>): seq<T> {
    if ops == [] then [] else PushedBy(ops[0]) + Pushed(ops[1..])
  }

  function PushedBy<T>(op: Op<T>): seq<T> {
    if op.PushOp? then [op.v] else []
  }

  /** The waiter ids of the `next` calls in a sequence of calls, in order. */
  function Requests<T>(ops: seq<Op<T>>): seq<WaiterId> {
    if ops == [] then [] else RequestedBy(ops[0]) + Requests(ops[1..])
  }

  function RequestedBy<T>(op: Op<T>): seq<WaiterId> {
    if op.NextOp? then [op.w] else []
  }

  /** A run of pushes and pulls only. */
  predicate PushesAndPulls<T>(ops: seq<Op<T>>) {
    forall i | 0 <= i < |ops| :: ops[i].PushOp? || ops[i].NextOp?
  }

  /** One push per value. */
  function PushOps<T>(vs: seq<T>): (ops: seq<Op<T>>)
    ensures |ops| == |vs| && PushesAndPulls(ops)
  {
    seq(|vs|, i requires 0 <= i < |vs| => PushOp(vs[i]))
  }

  lemma {:induction false} ValuesAppend<T>(a: seq<Resolution<T>>, b: seq<Resolution<T>>)
    ensures Values(a + b) == Values(a) + Values(b)
    decreases |a|
  {
    if a == [] {
      assert a + b == b;
    } else {
      assert (a + b)[0] == a[0] && (a + b)[1..] == a[1..] + b;
      ValuesAppend(a[1..], b);
      var head := if a[0].result.Value? then [a[0].result.value] else [];
      assert Values(a + b) == head + Values(a[1..] + b);
      assert Values(a) == head + Values(a[1..]);
      assert head + (Values(a[1..]) + Values(b)) == (head + Values(a[1..])) + Values(b);
    }
  }

  lemma WaitersAppend<T>(a: seq<Resolution<T>>, b: seq<Resolution<T>>)
    ensures Waiters(a + b) == Waiters(a) + Waiters(b)
  {
    assert forall i | 0 <= i < |a + b| :: Waiters(a + b)[i] == (Waiters(a) + Waiters(b))[i];
  }

  /** When every resolution hands out a value, there is one value per resolution. */
  lemma {:induction false} ValuesOfValues<T>(rs: seq<Resolution<T>>)
    requires forall r | r in rs :: r.result.Value?
    ensures |Values(rs)| == |rs|
    ensures forall i | 0 <= i < |rs| :: Values(rs)[i] == rs[i].result.value
    decreases |rs|
  {
    if rs != [] {
      assert forall r | r in rs[1..] :: r in rs;
      ValuesOfValues(rs[1..]);
    }
  }

  lemma {:induction false} PushedAllOfPushOps<T>(vs: seq<T>)
    ensures Pushed(PushOps(vs)) == vs
    ensures Requests(PushOps(vs)) == []
    decreases |vs|
  {
    if vs != [] {
      assert PushOps(vs)[1..] == PushOps(vs[1..]);
      PushedAllOfPushOps(vs[1..]);
    }
  }

  lemma ValuesSingle<T>(w: WaiterId, v: T)
    ensures Values([Resolved(w, Value(v))]) == [v]
  {
    assert [Resolved(w, Value(v))][1..] == [];
  }

  lemma PushConserves<T>(l: Listener<T>, v: T)
    requires Valid(l) && !l.closed
    ensures Values(Push(l, v).resolved) + Push(l, v).state.queued == l.queued + [v]
  {
    if |l.waiting| > 0 {
      ValuesSingle(l.waiting[0], v);
    }
  }

  lemma NextConserves<T>(l: Listener<T>, w: WaiterId)
    requires Valid(l) && !l.closed
    ensures Values(Apply(l, NextOp(w)).resolved) + Apply(l, NextOp(w)).state.queued == l.queued
    ensures Waiters(Apply(l, NextOp(w)).resolved) + Apply(l, NextOp(w)).state.waiting == l.waiting + [w]
    ensures forall r | r in Apply(l, NextOp(w)).resolved :: r.result.Value?
  {
    if |l.queued| > 0 {
      ValuesSingle(w, l.queued[0]);
      assert Apply(l, NextOp(w)) == Step(l.(queued := l.queued[1..]), [Resolved(w, Value(l.queued[0]))]);
    } else {
      assert Apply(l, NextOp(w)) == Step(l.(waiting := l.waiting + [w]), []);
    }
  }

  /** One push or pull on an open listener conserves values and calls. */
  lemma ApplyConserves<T>(l: Listener<T>, op: Op<T>)
    requires Valid(l) && !l.closed && (op.PushOp? || op.NextOp?)
    ensures Valid(Apply(l, op).state) && !Apply(l, op).state.closed
    ensures Values(Apply(l, op).resolved) + Apply(l, op).state.queued == l.queued + PushedBy(op)
    ensures Waiters(Apply(l, op).resolved) + Apply(l, op).state.waiting == l.waiting + RequestedBy(op)
    ensures forall r | r in Apply(l, op).resolved :: r.result.Value?
  {
    if op.PushOp? {
      PushConserves(l, op.v);
    } else {
      NextConserves(l, op.w);
    }
  }

  lemma TailPushesAndPulls<T>(ops: seq<Op<T>>)
    requires ops != [] && PushesAndPulls(ops)
    ensures PushesAndPulls(ops[1..]) && (ops[0].PushOp? || ops[0].NextOp?)
  {
    forall i | 0 <= i < |ops[1..]| ensures ops[1..][i].PushOp? || ops[1..][i].NextOp? {
      assert ops[1..][i] == ops[i + 1];
    }
  }

  /** Sequence bookkeeping for chaining two conservation facts. */
  lemma Regroup<X>(a: seq<X>, b: seq<X>, c: seq<X>, d: seq<X>, e: seq<X>, f: seq<X>, g: seq<X>)
    requires b + c == d + e && a + d == f + g
    ensures (a + b) + c == f + (g + e)
  {
    calc {
      (a + b) + c;
      a + (b + c);
      a + (d + e);
      (a + d) + e;
      (f + g) + e;
      f + (g + e);
    }
  }

  /** Conservation while a listener stays open under pushes and pulls: every
      value pushed is either handed out or still queued, and every `next`
      call is either answered or still waiting, both in call order. */
  lemma {:induction false} OpenRunConserves<T>(l: Listener<T>, ops: seq<Op<T>>)
    requires Valid(l) && !l.closed && PushesAndPulls(ops)
    ensures var r := RunOps(l, ops);
      && Valid(r.state) && !r.state.closed
      && Values(r.log) + r.state.queued == l.queued + Pushed(ops)
      && Waiters(r.log) + r.state.waiting == l.waiting + Requests(ops)
      && forall x | x in r.log :: x.result.Value?
    decreases |ops|
  {
    if ops != [] {
      TailPushesAndPulls(ops);
      var s := Apply(l, ops[0]);
      ApplyConserves(l, ops[0]);
      OpenRunConserves(s.state, ops[1..]);
      var r := RunOps(s.state, ops[1..]);
      assert RunOps(l, ops) == Run(r.state, s.resolved + r.log);
      ValuesAppend(s.resolved, r.log);
      WaitersAppend(s.resolved, r.log);
      Regroup(Waiters(s.resolved), Waiters(r.log), r.state.waiting, s.state.waiting,
              Requests(ops[1..]), l.waiting, RequestedBy(ops[0]));
      Regroup(Values(s.resolved), Values(r.log), r.state.queued, s.state.queued,
              Pushed(ops[1..]), l.queued, PushedBy(ops[0]));
      forall x | x in s.resolved + r.log ensures x.result.Value? {
        assert x in s.resolved || x in r.log;
      }
    }
  }

  /** FIFO delivery from a fresh listener: the k-th `next` call is answered
      with the k-th pushed value, answers come in call order, as many calls
      are answered as values were pushed (up to the number of calls), and the
      surplus is queued values or waiting calls, never both. */
  lemma {:induction false} FifoDelivery<T>(ops: seq<Op<T>>)
    requires PushesAndPulls(ops)
    ensures var r := RunOps(Fresh(), ops);
      && |r.log| == (if |Pushed(ops)| <= |Requests(ops)| then |Pushed(ops)| else |Requests(ops)|)
      && (forall i | 0 <= i < |r.log| :: r.log[i] == Resolved(Requests(ops)[i], Value(Pushed(ops)[i])))
      && r.state.queued == Pushed(ops)[|r.log|..]
      && r.state.waiting == Requests(ops)[|r.log|..]
  {
    var r := RunOps(Fresh(), ops);
    OpenRunConserves(Fresh(), ops);
    ValuesOfValues(r.log);
    var P, R := Pushed(ops), Requests(ops);
    assert Values(r.log) + r.state.queued == P;
    assert Waiters(r.log) + r.state.waiting == R;
    assert |Waiters(r.log)| == |r.log|;
    assert P[..|r.log|] == Values(r.log) && P[|r.log|..] == r.state.queued;
    assert R[..|r.log|] == Waiters(r.log) && R[|r.log|..] == r.state.waiting;
    forall i | 0 <= i < |r.log|
      ensures r.log[i] == Resolved(R[i], Value(P[i]))
    {
      assert r.log[i] in r.log;
      assert Waiters(r.log)[i] == r.log[i].waiter;
      assert Values(r.log)[i] == r.log[i].result.value;
    }
  }

  /** Pushing onto an open listener nobody waits on only appends to its queue. */
  lemma {:induction false} PushesAppend<T>(l: Listener<T>, vs: seq<T>)
    requires !l.closed && l.waiting == []
    ensures RunOps(l, PushOps(vs)) == Run(l.(queued := l.queued + vs), [])
  {
    OpenRunConserves(l, PushOps(vs));
    PushedAllOfPushOps(vs);
    var r := RunOps(l, PushOps(vs));
    assert |Waiters(r.log)| == |r.log|;
    assert r.log == [];
  }

  /** Closing is idempotent: a second close finds no waiter to settle and
      changes nothing. */
  lemma CloseTwice<T>(l: Listener<T>)
    ensures Close(Close(l).state) == Step(Close(l).state, [])
  {
  }

  /** Close is terminal: on a closed listener, pushes and pulls and returns
      change nothing, and every `next` is answered at once, in call order,
      with the terminal result, whatever is still queued. */
  lemma {:induction false} ClosedIsTerminal<T>(l: Listener<T>, ops: seq<Op<T>>)
    requires l.closed
    requires forall i | 0 <= i < |ops| :: !ops[i].CloseOp?
    ensures RunOps(l, ops).state == l
    ensures Waiters(RunOps(l, ops).log) == Requests(ops)
    ensures forall r | r in RunOps(l, ops).log :: r.result == Done
    decreases |ops|
  {
    if ops != [] {
      var op := ops[0];
      assert !op.CloseOp? by { assert ops[0] == op; }
      assert forall i | 0 <= i < |ops[1..]| :: !ops[1..][i].CloseOp? by {
        forall i | 0 <= i < |ops[1..]| ensures !ops[1..][i].CloseOp? {
          assert ops[1..][i] == ops[i + 1];
        }
      }
      var s := Apply(l, op);
      assert s.state == l && Waiters(s.resolved) == RequestedBy(op)
          && forall x | x in s.resolved :: x.result == Done by {
        match op
        case PushOp(v) =>
        case NextOp(w) =>
          assert s.resolved == [Resolved(w, Done)];
        case ReturnOp =>
      }
      ClosedIsTerminal(l, ops[1..]);
      var r := RunOps(l, ops[1..]);
      assert RunOps(l, ops) == Run(r.state, s.resolved + r.log);
      WaitersAppend(s.resolved, r.log);
      assert Requests(ops) == Requests([op]) + Requests(ops[1..]);
      forall x | x in s.resolved + r.log ensures x.result == Done {
        assert x in s.resolved || x in r.log;
      }
    }
  }

  lemma RunOpsFirst<T>(l: Listener<T>, ops: seq<Op<T>>)
    requires ops != []
    ensures RunOps(l, ops).state == RunOps(Apply(l, ops[0]).state, ops[1..]).state
    ensures RunOps(l, ops).log == Apply(l, ops[0]).resolved + RunOps(Apply(l, ops[0]).state, ops[1..]).log
  {
  }

  /** A run can be split at any point. */
  lemma {:induction false} RunOpsAppend<T>(l: Listener<T>, a: seq<Op<T>>, b: seq<Op<T>>)
    ensures RunOps(l, a + b).state == RunOps(RunOps(l, a).state, b).state
    ensures RunOps(l, a + b).log == RunOps(l, a).log + RunOps(RunOps(l, a).state, b).log
    decreases |a|
  {
    if a == [] {
      assert a + b == b;
    } else {
      assert (a + b)[0] == a[0];
      assert (a + b)[1..] == a[1..] + b;
      var s := Apply(l, a[0]);
      RunOpsAppend(s.state, a[1..], b);
      var x, y := RunOps(s.state, a[1..]).log, RunOps(RunOps(s.state, a[1..]).state, b).log;
      assert s.resolved + (x + y) == (s.resolved + x) + y;
    }
  }

  /** The pushes and the `next` calls of two runs, one after the other. */
  lemma PushedAppend<T>(a: seq<Op<T>>, b: seq<Op<T>>)
    ensures Pushed(a + b) == Pushed(a) + Pushed(b)
    ensures Requests(a + b) == Requests(a) + Requests(b)
    ensures PushesAndPulls(a) && PushesAndPulls(b) ==> PushesAndPulls(a + b)
  {
    PushedOfAppend(a, b);
    RequestsOfAppend(a, b);
    if PushesAndPulls(a) && PushesAndPulls(b) {
      forall i | 0 <= i < |a + b| ensures (a + b)[i].PushOp? || (a + b)[i].NextOp? {
        if i < |a| { assert (a + b)[i] == a[i]; } else { assert (a + b)[i] == b[i - |a|]; }
      }
    }
  }

  lemma {:induction false} PushedOfAppend<T>(a: seq<Op<T>>, b: seq<Op<T>>)
    ensures Pushed(a + b) == Pushed(a) + Pushed(b)
    decreases |a|
  {
    if a == [] {
      assert a + b == b;
    } else {
      assert (a + b)[0] == a[0] && (a + b)[1..] == a[1..] + b;
      PushedOfAppend(a[1..], b);
    }
  }

  lemma {:induction false} RequestsOfAppend<T>(a: seq<Op<T>>, b: seq<Op<T>>)
    ensures Requests(a + b) == Requests(a) + Requests(b)
    decreases |a|
  {
    if a == [] {
      assert a + b == b;
    } else {
      assert (a + b)[0] == a[0] && (a + b)[1..] == a[1..] + b;
      RequestsOfAppend(a[1..], b);
    }
  }
}
