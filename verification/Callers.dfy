/** Several calls of the remote client over one shared breaker, taking turns in any order. */
module Callers {
  import opened Wrappers
  import opened Lists
  import opened Breaker
  import opened Retry
  import opened Client

  /** What one call is given: the attempts it may make and what each of them meets. */
  datatype Request = Request(limit: nat, env: seq<Attempt>)

  predicate Runnable(r: Request) {
    1 <= r.limit <= |r.env|
  }

  /** Where a call stands: before an Allow, between its Allow and its Observe, or back at its caller. */
  datatype Stage = Asking | Executing | Returned(result: CallResult)

  datatype Progress = Progress(stage: Stage, attempt: nat, trace: seq<Event>, waits: seq<int>, executed: nat)

  const FRESH := Progress(Asking, 1, [], [], 0)

  predicate InRange(r: Request, p: Progress) {
    1 <= p.attempt <= r.limit <= |r.env|
  }

  /** What the loop does after an Observe, the breaker being out of its hands. */
  function AfterObserve(retry: RetryPolicy, r: Request, p: Progress): (q: Progress)
    requires InRange(r, p)
    ensures InRange(r, q)
  {
    var e := r.env[p.attempt - 1];
    if p.attempt == r.limit || !Repeats(e.outcome) then p.(stage := Returned(ResultOf(e.outcome)))
    else
      var delay := DelayOf(retry, p.attempt, HeaderOf(e.outcome), e.delayAt);
      if delay > 0 && !e.waited then p.(stage := Returned(Interrupted), waits := p.waits + [delay])
      else p.(stage := Asking, attempt := p.attempt + 1, waits := p.waits + [delay])
  }

  /** The loop up to its next use of the breaker. */
  function Advance(policy: BreakerPolicy, retry: RetryPolicy, r: Request, s: BreakerState, p: Progress):
      (next: (BreakerState, Progress))
    requires InRange(r, p)
    ensures InRange(r, next.1)
  {
    var e := r.env[p.attempt - 1];
    match p.stage
    case Asking =>
      var (next, admitted) := AllowStep(s, e.allowAt);
      (next, p.(stage := if admitted then Executing else Returned(CircuitOpen), trace := p.trace + [Allow(e.allowAt)]))
    case Executing =>
      var failed := AvailabilityFailure(e.outcome);
      (ObserveStep(policy, s, failed, e.observeAt),
       AfterObserve(retry, r, p.(trace := p.trace + [Observe(failed, e.observeAt)], executed := p.executed + 1)))
    case Returned(_) => (s, p)
  }

  // ----- A call on its own -----

  /** `turns` steps of one call with nobody else at the breaker. */
  function Alone(policy: BreakerPolicy, retry: RetryPolicy, r: Request, s: BreakerState, p: Progress, turns: nat):
      (BreakerState, Progress)
    requires InRange(r, p)
    decreases turns
  {
    if turns == 0 then (s, p)
    else
      var (next, q) := Advance(policy, retry, r, s, p);
      Alone(policy, retry, r, next, q, turns - 1)
  }

  ghost predicate Reports(p: Progress, end: (BreakerState, Progress), report: Report) {
    && end.0 == report.breaker
    && end.1.stage == Returned(report.result)
    && end.1.trace == p.trace + report.trace
    && end.1.waits == p.waits + report.waits
    && end.1.executed == p.executed + report.executed
  }

  lemma {:induction false} ReturnedStays(policy: BreakerPolicy, retry: RetryPolicy, r: Request, s: BreakerState,
                                         p: Progress, turns: nat)
    requires InRange(r, p) && p.stage.Returned?
    ensures Alone(policy, retry, r, s, p, turns) == (s, p)
    decreases turns
  {
    if turns > 0 {
      ReturnedStays(policy, retry, r, s, p, turns - 1);
    }
  }

  /** The turns of a call left to itself add up to the loop: the same result, breaker calls, waits and breaker. */
  lemma {:induction false} AloneIsTheLoop(policy: BreakerPolicy, retry: RetryPolicy, r: Request, s: BreakerState,
                                          p: Progress, turns: nat)
    requires InRange(r, p) && p.stage == Asking && turns >= 2 * (r.limit - p.attempt + 1)
    ensures Reports(p, Alone(policy, retry, r, s, p, turns), Attempts(policy, retry, s, p.attempt, r.limit, r.env))
    decreases r.limit - p.attempt
  {
    hide AllowStep, ObserveStep, DelayOf, Repeats, ResultOf, AvailabilityFailure, HeaderOf;
    var (s1, p1) := Advance(policy, retry, r, s, p);
    var (s2, p2) := Advance(policy, retry, r, s1, p1);
    if p1.stage.Returned? {
      ReturnedStays(policy, retry, r, s1, p1, turns - 1);
    } else if p2.stage.Returned? {
      ReturnedStays(policy, retry, r, s2, p2, turns - 2);
    } else {
      AloneIsTheLoop(policy, retry, r, s2, p2, turns - 2);
    }
  }

  // ----- Calls taking turns -----

  /** The breaker, every call, and what they have done at the breaker so far. */
  datatype World = World(breaker: BreakerState, calls: seq<Progress>, actions: seq<Action>)

  predicate Fits(requests: seq<Request>, w: World) {
    |w.calls| == |requests| && forall c | 0 <= c < |requests| :: InRange(requests[c], w.calls[c])
  }

  function ActionOf(c: nat, e: Event): Action {
    match e
    case Allow(now) => Call(c, now)
    case Observe(failed, now) => Return(c, failed, now)
  }

  function Turn(policy: BreakerPolicy, retry: RetryPolicy, requests: seq<Request>, w: World, c: nat): World
    requires Fits(requests, w)
  {
    if c >= |requests| || w.calls[c].stage.Returned? then w
    else
      var (breaker, p) := Advance(policy, retry, requests[c], w.breaker, w.calls[c]);
      World(breaker, w.calls[c := p], w.actions + [ActionOf(c, p.trace[|p.trace| - 1])])
  }

  predicate AllRunnable(requests: seq<Request>) {
    forall c | 0 <= c < |requests| :: Runnable(requests[c])
  }

  /** All calls before their first attempt, and then the turns given to them in this order. */
  function Interleaved(policy: BreakerPolicy, retry: RetryPolicy, requests: seq<Request>, order: seq<nat>): (w: World)
    requires AllRunnable(requests)
    ensures Fits(requests, w)
  {
    if order == [] then World(INITIAL, seq(|requests|, _ => FRESH), [])
    else Turn(policy, retry, requests, Interleaved(policy, retry, requests, order[..|order| - 1]), order[|order| - 1])
  }

  function EventOf(a: Action): Event {
    match a
    case Call(_, now) => Allow(now)
    case Return(_, failed, now) => Observe(failed, now)
  }

  function Events(actions: seq<Action>): seq<Event> {
    Map(EventOf, actions)
  }

  /** What one caller did at the breaker. */
  function Own(actions: seq<Action>, c: nat): seq<Event> {
    Map(EventOf, Filter((a: Action) => a.caller == c, actions))
  }

  function InFlight(w: World): set<nat> {
    set c | 0 <= c < |w.calls| && w.calls[c].stage == Executing
  }

  /** The step of one turn, in the terms of the breaker and of the caller. */
  lemma TurnSteps(policy: BreakerPolicy, retry: RetryPolicy, requests: seq<Request>, w: World, c: nat)
    requires Fits(requests, w) && c < |requests| && !w.calls[c].stage.Returned?
    ensures var after := Turn(policy, retry, requests, w, c);
            var a := after.actions[|after.actions| - 1];
            && after.actions == w.actions + [a] && a.caller == c
            && after.breaker == Step(policy, w.breaker, EventOf(a))
            && after.calls == w.calls[c := after.calls[c]]
            && after.calls[c].trace == w.calls[c].trace + [EventOf(a)]
            && (a.Call? <==> w.calls[c].stage == Asking)
            && (after.calls[c].stage == Executing <==> a.Call? && AllowStep(w.breaker, a.now).1)
  {
    hide AllowStep, ObserveStep, DelayOf, Repeats;
  }

  lemma OwnSnoc(actions: seq<Action>, a: Action, c: nat)
    ensures Own(actions + [a], c) == if a.caller == c then Own(actions, c) + [EventOf(a)] else Own(actions, c)
  {
    var mine := (b: Action) => b.caller == c;
    FilterSnoc(mine, actions, a);
    if a.caller == c {
      MapSnoc(EventOf, Filter(mine, actions), a);
    }
  }

  lemma RunSnoc(policy: BreakerPolicy, actions: seq<Action>, a: Action)
    ensures Run(policy, Events(actions + [a])) == Step(policy, Run(policy, Events(actions)), EventOf(a))
  {
    hide Step;
    MapSnoc(EventOf, actions, a);
    assert (Events(actions) + [EventOf(a)])[..|actions|] == Events(actions);
  }

  ghost predicate Explained(policy: BreakerPolicy, w: World) {
    && w.breaker == Run(policy, Events(w.actions))
    && forall c | 0 <= c < |w.calls| :: w.calls[c].trace == Own(w.actions, c)
  }

  lemma TurnExplained(policy: BreakerPolicy, retry: RetryPolicy, requests: seq<Request>, w: World, c: nat)
    requires Fits(requests, w) && c < |requests| && !w.calls[c].stage.Returned? && Explained(policy, w)
    ensures Explained(policy, Turn(policy, retry, requests, w, c))
  {
    TurnSteps(policy, retry, requests, w, c);
    var after := Turn(policy, retry, requests, w, c);
    hide Turn, Step, Own, Events, Run;
    var a := after.actions[|after.actions| - 1];
    RunSnoc(policy, w.actions, a);
    forall d | 0 <= d < |after.calls|
      ensures after.calls[d].trace == Own(after.actions, d)
    {
      OwnSnoc(w.actions, a, d);
    }
  }

  /** Whatever the order of the turns: the breaker is the one its whole history leaves, and each call's trace is its
      share of that history. */
  lemma {:induction false} HistoryExplains(policy: BreakerPolicy, retry: RetryPolicy, requests: seq<Request>,
                                           order: seq<nat>)
    requires AllRunnable(requests)
    ensures Explained(policy, Interleaved(policy, retry, requests, order))
  {
    if order != [] {
      var before := Interleaved(policy, retry, requests, order[..|order| - 1]);
      var c := order[|order| - 1];
      HistoryExplains(policy, retry, requests, order[..|order| - 1]);
      if c < |requests| && !before.calls[c].stage.Returned? {
        TurnExplained(policy, retry, requests, before, c);
        hide Explained;
      }
    }
  }

  /** The calls between their Allow and their Observe are the callers in flight of a run of the breaker. */
  ghost predicate IsARun(policy: BreakerPolicy, w: World) {
    exists prober :: Reachable(policy, System(w.breaker, InFlight(w), prober), w.actions)
  }

  /** Calls taking turns in any order are a run of callers that pair every admitted Allow with one Observe. */
  lemma {:induction false} TurnsAreActions(policy: BreakerPolicy, retry: RetryPolicy, requests: seq<Request>,
                                           order: seq<nat>)
    requires AllRunnable(requests)
    ensures IsARun(policy, Interleaved(policy, retry, requests, order))
  {
    var w := Interleaved(policy, retry, requests, order);
    if order == [] {
      assert System(w.breaker, InFlight(w), None) == QUIET;
      assert Reachable(policy, System(w.breaker, InFlight(w), None), w.actions);
    } else {
      var before := Interleaved(policy, retry, requests, order[..|order| - 1]);
      var c := order[|order| - 1];
      TurnsAreActions(policy, retry, requests, order[..|order| - 1]);
      if c < |requests| && !before.calls[c].stage.Returned? {
        TurnSteps(policy, retry, requests, before, c);
        var prober :| Reachable(policy, System(before.breaker, InFlight(before), prober), before.actions);
        TurnActs(policy, before, w, c, prober);
      }
    }
  }

  lemma TurnActs(policy: BreakerPolicy, before: World, w: World, c: nat, prober: Option<nat>)
    requires Reachable(policy, System(before.breaker, InFlight(before), prober), before.actions)
    requires w.actions != [] && c < |before.calls| && w.actions == before.actions + [w.actions[|w.actions| - 1]]
    requires |w.calls| == |before.calls| && w.calls == before.calls[c := w.calls[c]]
    requires !before.calls[c].stage.Returned?
    requires var a := w.actions[|w.actions| - 1];
             && a.caller == c && w.breaker == Step(policy, before.breaker, EventOf(a))
             && (a.Call? <==> before.calls[c].stage == Asking)
             && (w.calls[c].stage == Executing <==> a.Call? && AllowStep(before.breaker, a.now).1)
    ensures IsARun(policy, w)
  {
    hide ObserveStep;
    var a := w.actions[|w.actions| - 1];
    var s := System(before.breaker, InFlight(before), prober);
    assert w.actions[..|w.actions| - 1] == before.actions;
    assert InFlight(w) == if w.calls[c].stage == Executing then InFlight(before) + {c} else InFlight(before) - {c};
    var t := Act(policy, s, a);
    assert t.inFlight == InFlight(w) && t.breaker == w.breaker;
    assert Reachable(policy, System(w.breaker, InFlight(w), t.prober), w.actions);
  }

  /** What a call has done so far: no more executions than attempts, one wait after each that is repeated. */
  ghost predicate Accounted(retry: RetryPolicy, r: Request, p: Progress) {
    && InRange(r, p)
    && |p.waits| <= p.executed <= p.attempt
    && (p.stage.Returned? || (p.executed == p.attempt - 1 == |p.waits|))
    && |p.trace| == 2 * p.executed + (if p.stage == Executing || p.stage == Returned(CircuitOpen) then 1 else 0)
    && forall i | 0 <= i < |p.waits| :: p.waits[i] == DelayAt(retry, r.env, i + 1)
  }

  lemma AdvanceAccounted(policy: BreakerPolicy, retry: RetryPolicy, r: Request, s: BreakerState, p: Progress)
    requires Accounted(retry, r, p)
    ensures Accounted(retry, r, Advance(policy, retry, r, s, p).1)
  {
    hide AllowStep, ObserveStep, DelayOf, Repeats, HeaderOf;
  }

  lemma {:induction false} AllAccounted(policy: BreakerPolicy, retry: RetryPolicy, requests: seq<Request>,
                                        order: seq<nat>)
    requires AllRunnable(requests)
    ensures var w := Interleaved(policy, retry, requests, order);
            forall c | 0 <= c < |requests| :: Accounted(retry, requests[c], w.calls[c])
  {
    if order != [] {
      var before := Interleaved(policy, retry, requests, order[..|order| - 1]);
      var c := order[|order| - 1];
      AllAccounted(policy, retry, requests, order[..|order| - 1]);
      if c < |requests| {
        AdvanceAccounted(policy, retry, requests[c], before.breaker, before.calls[c]);
        hide Accounted, Advance;
      }
    }
  }

  /** How often call `c` got its turn. */
  function Turns(order: seq<nat>, c: nat): nat {
    if order == [] then 0
    else Turns(order[..|order| - 1], c) + if order[|order| - 1] == c then 1 else 0
  }

  /** A call that has not returned has used every turn it got on the breaker. */
  lemma {:induction false} EveryTurnCounts(policy: BreakerPolicy, retry: RetryPolicy, requests: seq<Request>,
                                           order: seq<nat>, c: nat)
    requires AllRunnable(requests) && c < |requests|
    ensures var p := Interleaved(policy, retry, requests, order).calls[c];
            p.stage.Returned? || |p.trace| == Turns(order, c)
  {
    if order != [] {
      var front, d := order[..|order| - 1], order[|order| - 1];
      var before := Interleaved(policy, retry, requests, front);
      EveryTurnCounts(policy, retry, requests, front, c);
      if d < |requests| && !before.calls[d].stage.Returned? {
        TurnSteps(policy, retry, requests, before, d);
        hide Turn, Advance;
      }
    }
  }

  /** However the calls take turns at one breaker: it is in the state its history of events explains; a probe belongs to
      a call between its Allow and its Observe, so with no such call it admits the next one as soon as it is closed or
      its open time is over; and each call has executed at most as often as it may, has waited the delays of its
      attempts, and is back after at most two turns an attempt. */
  lemma AnyInterleaving(policy: BreakerPolicy, retry: RetryPolicy, requests: seq<Request>, order: seq<nat>)
    requires policy.failureThreshold >= 1 && AllRunnable(requests)
    ensures var w := Interleaved(policy, retry, requests, order);
            && w.breaker == Summary(policy, Events(w.actions))
            && (w.breaker.probeActive ==> exists c :: 0 <= c < |requests| && w.calls[c].stage == Executing)
            && ((forall c | 0 <= c < |requests| :: w.calls[c].stage != Executing) ==>
                  forall now | w.breaker.openedUntil.None? || now >= w.breaker.openedUntil.value ::
                      AllowStep(w.breaker, now).1)
            && (forall c | 0 <= c < |requests| ::
                  && |w.calls[c].waits| <= w.calls[c].executed <= requests[c].limit
                  && (forall i | 0 <= i < |w.calls[c].waits| ::
                        w.calls[c].waits[i] == DelayAt(retry, requests[c].env, i + 1))
                  && (Turns(order, c) >= 2 * requests[c].limit ==> w.calls[c].stage.Returned?))
  {
    hide Interleaved, DelayAt, Turns, Summary;
    var w := Interleaved(policy, retry, requests, order);
    HistoryExplains(policy, retry, requests, order);
    RunSummary(policy, Events(w.actions));
    AllAccounted(policy, retry, requests, order);
    TurnsAreActions(policy, retry, requests, order);
    var prober :| Reachable(policy, System(w.breaker, InFlight(w), prober), w.actions);
    ReachableProber(policy, System(w.breaker, InFlight(w), prober), w.actions);
    forall c | 0 <= c < |requests|
      ensures Turns(order, c) >= 2 * requests[c].limit ==> w.calls[c].stage.Returned?
    {
      EveryTurnCounts(policy, retry, requests, order, c);
    }
  }
}
