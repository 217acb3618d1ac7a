/** The completion chain: `RenderDataEvent.waitPromises` and `waitUntil` in
    src/index.ts.

    A promise is modelled by how it settles (fulfilled, or rejected with a
    reason) and when, on an abstract clock. A registration is a promise
    together with the time of the `waitUntil` call that registered it. The
    chain is the list of registrations, in call order; its tail is what
    `waitPromises` holds: `Promise.resolve()` followed by one
    `.then(() => p)` per registration, each created at its call.
 */
module Completion {

  datatype Outcome = Ok | Err(reason: string)

  /** How and when a promise settles. */
  datatype Settlement = Settlement(outcome: Outcome, at: nat)

  /** A promise passed to `waitUntil`, and when that call was made. */
  datatype Registration = Registration(promise: Settlement, called: nat)

  /** The registrations, oldest first. */
  type Chain = seq<Registration>

  function Max(a: nat, b: nat): nat {
    if a < b then b else a
  }

  /** `prev.then(() => p)`, created when `waitUntil` is called. It cannot
      settle before that call nor before `prev`. A rejection of `prev` passes
      through with its reason; otherwise the callback returns `p` and the
      result adopts `p`, so it also waits for `p`. */
  function Then(prev: Settlement, reg: Registration): (r: Settlement)
    ensures prev.at <= r.at && reg.called <= r.at
    ensures prev.outcome.Err? ==> r.outcome == prev.outcome && (r.at == prev.at || r.at == reg.called)
    ensures prev.outcome.Ok? ==> r.outcome == reg.promise.outcome && reg.promise.at <= r.at
    ensures prev.outcome.Ok? ==> r.at == prev.at || r.at == reg.called || r.at == reg.promise.at
  {
    var start := Max(prev.at, reg.called);
    if prev.outcome.Err? then Settlement(prev.outcome, start)
    else Settlement(reg.promise.outcome, Max(start, reg.promise.at))
  }

  /** The settlement of `waitPromises` after the registrations in `c`:
      fulfilled at once when none is registered; otherwise never settled
      before the first registered promise, nor before the last call. */
  function Tail(c: Chain): (r: Settlement)
    ensures c == [] ==> r == Settlement(Ok, 0)
    ensures c != [] ==> c[0].promise.at <= r.at && c[|c| - 1].called <= r.at
    decreases |c|
  {
    if c == [] then Settlement(Ok, 0) else Then(Tail(c[..|c| - 1]), c[|c| - 1])
  }

  /** The latest `waitUntil` call in `c`, or 0 when there is none. */
  function LatestCall(c: Chain): (t: nat)
    ensures forall i | 0 <= i < |c| :: c[i].called <= t
    ensures c == [] ==> t == 0
    ensures c != [] ==> exists i | 0 <= i < |c| :: c[i].called == t
    decreases |c|
  {
    if c == [] then 0
    else
      var init := c[..|c| - 1];
      var t0 := LatestCall(init);
      assert forall i | 0 <= i < |init| :: init[i] == c[i];
      Max(t0, c[|c| - 1].called)
  }

  /** The latest settle time of a promise registered in `c`, or 0. */
  function LatestSettle(c: Chain): (t: nat)
    ensures forall i | 0 <= i < |c| :: c[i].promise.at <= t
    ensures c == [] ==> t == 0
    ensures c != [] ==> exists i | 0 <= i < |c| :: c[i].promise.at == t
    decreases |c|
  {
    if c == [] then 0
    else
      var init := c[..|c| - 1];
      var t0 := LatestSettle(init);
      assert forall i | 0 <= i < |init| :: init[i] == c[i];
      Max(t0, c[|c| - 1].promise.at)
  }

  /** The latest call of a concatenation is the later of the two parts'. */
  lemma {:induction false} LatestCallAppend(a: Chain, b: Chain)
    ensures LatestCall(a + b) == Max(LatestCall(a), LatestCall(b))
    decreases |b|
  {
    if b == [] {
      assert a + b == a;
    } else {
      var init := b[..|b| - 1];
      assert (a + b)[..|a + b| - 1] == a + init;
      assert (a + b)[|a + b| - 1] == b[|b| - 1];
      LatestCallAppend(a, init);
    }
  }

  /** The tail takes its outcome and its settle time from the registrations:
      a rejection is the rejection of one of the registered promises, and
      the tail settles no earlier than the latest call, no later than the
      latest call or settle time, and exactly at one of them. */
  lemma {:induction false} TailFromRegistrations(c: Chain)
    ensures Tail(c).outcome.Err? ==> exists i | 0 <= i < |c| :: c[i].promise.outcome == Tail(c).outcome
    ensures LatestCall(c) <= Tail(c).at <= Max(LatestCall(c), LatestSettle(c))
    ensures c != [] ==> exists i | 0 <= i < |c| :: c[i].promise.at == Tail(c).at || c[i].called == Tail(c).at
    decreases |c|
  {
    if c != [] {
      var init := c[..|c| - 1];
      TailFromRegistrations(init);
      if Tail(init).outcome.Err? {
        var i :| 0 <= i < |init| && init[i].promise.outcome == Tail(init).outcome;
        assert c[i] == init[i];
      }
      if init != [] && Tail(c).at == Tail(init).at {
        var i :| 0 <= i < |init| && (init[i].promise.at == Tail(init).at || init[i].called == Tail(init).at);
        assert c[i] == init[i];
      }
    }
  }

  /** A fresh event: nothing registered, and the chain is already fulfilled. */
  function Start(): (c: Chain)
    ensures |c| == 0 && Tail(c) == Settlement(Ok, 0)
  {
    []
  }

  /** `waitUntil(p)` called at time `now`: registers `p` after all earlier
      registrations. */
  function WaitUntil(c: Chain, p: Settlement, now: nat): (r: Chain)
    ensures |r| == |c| + 1 && r[..|c|] == c && r[|c|] == Registration(p, now)
    ensures Tail(r) == Then(Tail(c), Registration(p, now))
  {
    c + [Registration(p, now)]
  }

  /** Every registered promise is fulfilled. */
  predicate AllOk(c: Chain) {
    forall i | 0 <= i < |c| :: c[i].promise.outcome.Ok?
  }

  /** The promise at `k` is the first registered one to reject. */
  predicate FirstErrAt(c: Chain, k: nat) {
    k < |c| && c[k].promise.outcome.Err? && AllOk(c[..k])
  }

  /** When every registered promise is fulfilled, the chain is fulfilled,
      exactly once the last call has been made and the last of the promises
      has settled. */
  lemma {:induction false} AllOkFulfils(c: Chain)
    requires AllOk(c)
    ensures Tail(c) == Settlement(Ok, Max(LatestCall(c), LatestSettle(c)))
    decreases |c|
  {
    if c != [] {
      var init := c[..|c| - 1];
      assert forall i | 0 <= i < |init| :: init[i] == c[i];
      AllOkFulfils(init);
    }
  }

  /** Fail fast: once the tail has rejected, later registrations keep its
      reason, and whatever their promises' settlements are, they delay the
      tail only up to their own calls. */
  lemma {:induction false} RejectionIsFinal(c: Chain, more: Chain)
    requires Tail(c).outcome.Err?
    ensures Tail(c + more) == Settlement(Tail(c).outcome, Max(Tail(c).at, LatestCall(more)))
    decreases |more|
  {
    if more == [] {
      assert c + more == c;
    } else {
      var init := more[..|more| - 1];
      assert (c + more)[..|c + more| - 1] == c + init;
      assert (c + more)[|c + more| - 1] == more[|more| - 1];
      RejectionIsFinal(c, init);
      assert Tail(c + more) == Then(Tail(c + init), more[|more| - 1]);
    }
  }

  /** If some registered promise rejects, the chain rejects with the reason of
      the first one to reject, once it and every earlier promise have settled
      and every call has been made: the later promises play no part. */
  lemma {:induction false} FirstRejectionWins(c: Chain, k: nat)
    requires FirstErrAt(c, k)
    ensures Tail(c) == Settlement(c[k].promise.outcome, Max(LatestCall(c), LatestSettle(c[..k + 1])))
  {
    var pre := c[..k];
    var upto := c[..k + 1];
    AllOkFulfils(pre);
    assert upto[..k] == pre;
    assert upto[k] == c[k];
    assert Tail(upto) == Then(Tail(pre), c[k]);
    assert LatestCall(upto) == Max(LatestCall(pre), c[k].called);
    assert LatestSettle(upto) == Max(LatestSettle(pre), c[k].promise.at);
    assert c == upto + c[k + 1..];
    RejectionIsFinal(upto, c[k + 1..]);
    LatestCallAppend(upto, c[k + 1..]);
  }

  /** The chain's outcome is the first rejection in registration order, or
      fulfilment when there is none. */
  lemma {:induction false} ChainOutcome(c: Chain)
    ensures Tail(c).outcome.Ok? <==> AllOk(c)
    ensures !AllOk(c) ==> exists k: nat :: FirstErrAt(c, k) && Tail(c).outcome == c[k].promise.outcome
  {
    if AllOk(c) {
      AllOkFulfils(c);
    } else {
      var k := FirstErr(c);
      FirstRejectionWins(c, k);
    }
  }

  /** The position of the first rejected registration. */
  function FirstErr(c: Chain): (k: nat)
    requires !AllOk(c)
    ensures FirstErrAt(c, k)
    decreases |c|
  {
    if c[0].promise.outcome.Err? then 0
    else
      var k := FirstErr(c[1..]);
      assert forall i | 0 <= i < k :: c[..k + 1][i] == c[i];
      assert forall i | 0 < i <= k :: c[i] == c[1..][i - 1];
      k + 1
  }
}
