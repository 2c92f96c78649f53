/** The availability circuit breaker as a state machine driven by any interleaving of Allow and Observe calls. */
module Breaker {
  import opened Wrappers

  datatype BreakerPolicy = BreakerPolicy(failureThreshold: int, openDuration: int)

  /** The mutex-protected fields; the zero time is `None`. */
  datatype BreakerState = BreakerState(failures: int, openedUntil: Option<int>, probeActive: bool)

  const INITIAL := BreakerState(0, None, false)

  function AllowStep(s: BreakerState, now: int): (BreakerState, bool) {
    if s.openedUntil.None? then (s, true)
    else if now < s.openedUntil.value || s.probeActive then (s, false)
    else (s.(probeActive := true), true)
  }

  function ObserveStep(policy: BreakerPolicy, s: BreakerState, failed: bool, now: int): BreakerState {
    if !failed then BreakerState(0, None, false)
    else if s.probeActive || s.failures + 1 >= policy.failureThreshold then
      BreakerState(policy.failureThreshold, Some(now + policy.openDuration), false)
    else s.(failures := s.failures + 1)
  }

  /** `availabilityCircuitBreaker`; each method runs under the mutex, so a call is one step. */
  class CircuitBreaker {
    const policy: BreakerPolicy
    var failures: int
    var openedUntil: Option<int>
    var probeActive: bool

    function State(): BreakerState
      reads this
    {
      BreakerState(failures, openedUntil, probeActive)
    }

    constructor (policy: BreakerPolicy)
      ensures this.policy == policy && State() == INITIAL
    {
      this.policy := policy;
      failures, openedUntil, probeActive := 0, None, false;
    }

    method Allow(now: int) returns (allowed: bool)
      modifies this
      ensures (State(), allowed) == AllowStep(old(State()), now)
    {
      if openedUntil.None? { return true; }
      if now < openedUntil.value || probeActive { return false; }
      probeActive := true;
      return true;
    }

    method Observe(failed: bool, now: int)
      modifies this
      ensures State() == ObserveStep(policy, old(State()), failed, now)
    {
      if !failed {
        failures, openedUntil, probeActive := 0, None, false;
        return;
      }
      if probeActive || failures + 1 >= policy.failureThreshold {
        failures := policy.failureThreshold;
        openedUntil := Some(now + policy.openDuration);
        probeActive := false;
        return;
      }
      failures := failures + 1;
    }
  }

  // ----- Runs -----

  datatype Event = Allow(now: int) | Observe(failed: bool, now: int)

  function Step(policy: BreakerPolicy, s: BreakerState, e: Event): BreakerState {
    match e
    case Allow(now) => AllowStep(s, now).0
    case Observe(failed, now) => ObserveStep(policy, s, failed, now)
  }

  /** The breaker after a run of calls, in the order the mutex admitted them. */
  function Run(policy: BreakerPolicy, events: seq<Event>): BreakerState {
    if events == [] then INITIAL
    else Step(policy, Run(policy, events[..|events| - 1]), events[|events| - 1])
  }

  /** What the Allow call at position i answered. */
  predicate Answered(policy: BreakerPolicy, events: seq<Event>, i: nat)
    requires i < |events| && events[i].Allow?
  {
    AllowStep(Run(policy, events[..i]), events[i].now).1
  }

  /** The failures observed since the last success. */
  function Trailing(events: seq<Event>): nat {
    if events == [] then 0
    else
      var before := Trailing(events[..|events| - 1]);
      match events[|events| - 1]
      case Allow(_) => before
      case Observe(failed, _) => if failed then before + 1 else 0
  }

  /** The time of the last observed failure. */
  function LastFailure(events: seq<Event>): int {
    if events == [] then 0
    else
      match events[|events| - 1]
      case Observe(true, now) => now
      case _ => LastFailure(events[..|events| - 1])
  }

  /** Some Allow call since the last Observe came at or after `until`. */
  predicate Probed(events: seq<Event>, until: int) {
    if events == [] || events[|events| - 1].Observe? then false
    else events[|events| - 1].now >= until || Probed(events[..|events| - 1], until)
  }

  /** The state of a run, read off its history instead of stepping through it. */
  function Summary(policy: BreakerPolicy, events: seq<Event>): BreakerState {
    var open := Trailing(events) >= policy.failureThreshold;
    var until := LastFailure(events) + policy.openDuration;
    BreakerState(if open then policy.failureThreshold else Trailing(events),
                 if open then Some(until) else None,
                 open && Probed(events, until))
  }

  /** After every run the breaker is open exactly when at least threshold failures have been observed since the last
      success, until the last failure plus the open duration, with a probe out iff one was admitted since the last
      Observe. */
  lemma {:induction false} RunSummary(policy: BreakerPolicy, events: seq<Event>)
    requires policy.failureThreshold >= 1
    ensures Run(policy, events) == Summary(policy, events)
  {
    if events != [] {
      RunSummary(policy, events[..|events| - 1]);
    }
  }

  /** Closed iff fewer than threshold failures; a probe only while open. */
  lemma RunInvariant(policy: BreakerPolicy, events: seq<Event>)
    requires policy.failureThreshold >= 1
    ensures var s := Run(policy, events);
            && (s.openedUntil.None? <==> s.failures < policy.failureThreshold)
            && 0 <= s.failures <= policy.failureThreshold
            && (s.probeActive ==> s.openedUntil.Some?)
  {
    RunSummary(policy, events);
  }

  /** The breaker goes from closed to open exactly on the threshold-th consecutive failure. */
  lemma OpensAtThreshold(policy: BreakerPolicy, events: seq<Event>, e: Event)
    requires policy.failureThreshold >= 1
    ensures Run(policy, events).openedUntil.None? && Run(policy, events + [e]).openedUntil.Some? <==>
              e.Observe? && e.failed && Trailing(events) + 1 == policy.failureThreshold
  {
    var all := events + [e];
    assert all[..|all| - 1] == events;
    RunSummary(policy, events);
    RunSummary(policy, all);
  }

  /** An Allow is answered yes exactly when the breaker is closed, or the open time of the last failure is over and no
      other call has been admitted since the last Observe. */
  lemma AnsweredMeaning(policy: BreakerPolicy, events: seq<Event>, i: nat)
    requires policy.failureThreshold >= 1 && i < |events| && events[i].Allow?
    ensures var before := events[..i];
            var until := LastFailure(before) + policy.openDuration;
            Answered(policy, events, i) <==>
              Trailing(before) < policy.failureThreshold || (events[i].now >= until && !Probed(before, until))
  {
    RunSummary(policy, events[..i]);
  }

  /** From position `i` up to `j` no success is observed, and no failure that the clock dates before that of `i`. */
  predicate Failing(events: seq<Event>, i: nat, j: nat)
    requires i < j <= |events|
  {
    forall m | i <= m < j && events[m].Observe? :: events[m].failed && events[m].now >= events[i].now
  }

  lemma {:induction false} FailingKeeps(policy: BreakerPolicy, events: seq<Event>, i: nat, k: nat)
    requires i < k <= |events| && events[i].Observe? && Failing(events, i, k)
    ensures Trailing(events[..k]) >= Trailing(events[..i + 1])
    ensures LastFailure(events[..k]) >= events[i].now
  {
    var now := events[..k];
    assert now[..|now| - 1] == events[..k - 1];
    assert events[i].failed;
    if k > i + 1 {
      FailingKeeps(policy, events, i, k - 1);
    }
  }

  /** A breaker opened by a failure at some time admits nothing for the whole open duration after it, whatever else
      happens meanwhile, unless a call succeeds or the clock steps back to before that failure. */
  lemma NoEarlyAllow(policy: BreakerPolicy, events: seq<Event>, i: nat, j: nat)
    requires policy.failureThreshold >= 1 && i < j < |events|
    requires events[i].Observe? && Trailing(events[..i + 1]) >= policy.failureThreshold && Failing(events, i, j)
    requires events[j].Allow? && events[j].now < events[i].now + policy.openDuration
    ensures !Answered(policy, events, j)
  {
    FailingKeeps(policy, events, i, j);
    AnsweredMeaning(policy, events, j);
  }

  lemma {:induction false} ProbeStays(policy: BreakerPolicy, events: seq<Event>, i: nat, k: nat)
    requires i < k <= |events|
    requires Run(policy, events[..i + 1]).probeActive && Run(policy, events[..i + 1]).openedUntil.Some?
    requires forall m | i < m < k :: events[m].Allow?
    ensures Run(policy, events[..k]).probeActive && Run(policy, events[..k]).openedUntil.Some?
  {
    if k > i + 1 {
      ProbeStays(policy, events, i, k - 1);
      assert events[..k][..k - 1] == events[..k - 1];
    }
  }

  /** While open, at most one call is admitted between two consecutive observations. */
  lemma OneProbe(policy: BreakerPolicy, events: seq<Event>, i: nat, j: nat)
    requires i < j < |events| && events[i].Allow? && events[j].Allow?
    requires forall m | i < m < j :: events[m].Allow?
    requires Run(policy, events[..i]).openedUntil.Some? && Answered(policy, events, i)
    ensures !Answered(policy, events, j)
  {
    assert events[..i + 1][..i] == events[..i];
    ProbeStays(policy, events, i, j);
  }

  // ----- Callers that pair every admitted Allow with one Observe -----

  /** A breaker and the callers between their Allow and their Observe; `prober` is history, not state of the source. */
  datatype System = System(breaker: BreakerState, inFlight: set<nat>, prober: Option<nat>)

  datatype Action = Call(caller: nat, now: int) | Return(caller: nat, failed: bool, now: int)

  const QUIET := System(INITIAL, {}, None)

  predicate Enabled(s: System, a: Action) {
    match a
    case Call(c, _) => c !in s.inFlight
    case Return(c, _, _) => c in s.inFlight
  }

  function Act(policy: BreakerPolicy, s: System, a: Action): System {
    match a
    case Call(c, now) =>
      var (next, admitted) := AllowStep(s.breaker, now);
      System(next, if admitted then s.inFlight + {c} else s.inFlight, if admitted && next.probeActive then Some(c)
          else s.prober)
    case Return(c, failed, now) =>
      System(ObserveStep(policy, s.breaker, failed, now), s.inFlight - {c}, None)
  }

  ghost predicate Reachable(policy: BreakerPolicy, s: System, actions: seq<Action>)
    decreases |actions|
  {
    if actions == [] then s == QUIET
    else
      var a := actions[|actions| - 1];
      exists before :: Reachable(policy, before, actions[..|actions| - 1]) && Enabled(before, a)
          && s == Act(policy, before, a)
  }

  predicate ProberInFlight(s: System) {
    && (s.breaker.probeActive ==> s.prober.Some? && s.prober.value in s.inFlight)
    && (s.breaker.probeActive ==> s.breaker.openedUntil.Some?)
  }

  lemma {:induction false} ReachableProber(policy: BreakerPolicy, s: System, actions: seq<Action>)
    requires policy.failureThreshold >= 1 && Reachable(policy, s, actions)
    ensures ProberInFlight(s) && (s.breaker.openedUntil.None? ==> s.breaker.failures < policy.failureThreshold)
    decreases |actions|
  {
    if actions != [] {
      var a := actions[|actions| - 1];
      var before :| Reachable(policy, before, actions[..|actions| - 1]) && Enabled(before, a)
          && s == Act(policy, before, a);
      ReachableProber(policy, before, actions[..|actions| - 1]);
    }
  }

  /** However the callers interleave, an active probe belongs to a call still in flight; so once all calls have
      returned, the breaker admits the next caller as soon as it is closed or its open time has passed. */
  lemma NeverStuck(policy: BreakerPolicy, s: System, actions: seq<Action>, now: int)
    requires policy.failureThreshold >= 1 && Reachable(policy, s, actions)
    ensures s.breaker.probeActive ==> s.inFlight != {}
    ensures s.inFlight == {} && (s.breaker.openedUntil.None? || now >= s.breaker.openedUntil.value) ==>
              AllowStep(s.breaker, now).1
  {
    ReachableProber(policy, s, actions);
  }
}
