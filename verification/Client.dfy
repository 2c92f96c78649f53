/** The attempt loop of the remote client: Allow, execute, Observe, then return or wait and repeat. */
module Client {
  import opened Wrappers
  import opened Breaker
  import opened Retry

  /** What one HTTP exchange came to. */
  datatype Outcome = TransportFailure(retryable: bool) | Response(status: int, retryAfter: RetryAfter)

  /** Everything one attempt meets outside the loop: clock readings, the exchange, and whether its wait ran out. */
  datatype Attempt = Attempt(allowAt: int, outcome: Outcome, observeAt: int, delayAt: int, waited: bool)

  datatype CallResult = CircuitOpen | Interrupted | TransportError | Answered(status: int)

  /** What a call returns, the breaker calls and waits it made, how often it executed, and the breaker it leaves. */
  datatype Report = Report(result: CallResult, trace: seq<Event>, waits: seq<int>, executed: nat, breaker: BreakerState)

  predicate AvailabilityFailure(o: Outcome) {
    o.TransportFailure? || o.status >= 500
  }

  predicate Repeats(o: Outcome) {
    match o
    case TransportFailure(retryable) => retryable
    case Response(status, _) => RetryableStatus(status)
  }

  function HeaderOf(o: Outcome): Option<RetryAfter> {
    if o.Response? then Some(o.retryAfter) else None
  }

  function ResultOf(o: Outcome): CallResult {
    if o.Response? then Answered(o.status) else TransportError
  }

  /** The number of attempts a request may make. */
  function Limit(retry: RetryPolicy, replaySafe: bool): int {
    if replaySafe then retry.maxAttempts else 1
  }

  /** The call from attempt number `attempt` on. */
  function Attempts(policy: BreakerPolicy, retry: RetryPolicy, s: BreakerState, attempt: nat, limit: nat,
                    env: seq<Attempt>): Report
    requires 1 <= attempt <= limit <= |env|
    decreases limit - attempt
  {
    var e := env[attempt - 1];
    var (admittedState, admitted) := AllowStep(s, e.allowAt);
    if !admitted then Report(CircuitOpen, [Allow(e.allowAt)], [], 0, admittedState)
    else
      var failed := AvailabilityFailure(e.outcome);
      var observed := ObserveStep(policy, admittedState, failed, e.observeAt);
      var here := [Allow(e.allowAt), Observe(failed, e.observeAt)];
      if attempt == limit || !Repeats(e.outcome) then Report(ResultOf(e.outcome), here, [], 1, observed)
      else
        var delay := DelayOf(retry, attempt, HeaderOf(e.outcome), e.delayAt);
        if delay > 0 && !e.waited then Report(Interrupted, here, [delay], 1, observed)
        else
          var rest := Attempts(policy, retry, observed, attempt + 1, limit, env);
          Report(rest.result, here + rest.trace, [delay] + rest.waits, 1 + rest.executed, rest.breaker)
  }

  /** `doWithHeaders` from its loop on. The loop always returns from inside: its end is never reached. */
  method DoWithHeaders(breaker: CircuitBreaker, retry: RetryPolicy, verb: string, endpoint: string,
                       idempotencyKey: string, env: seq<Attempt>)
    returns (result: CallResult, trace: seq<Event>, waits: seq<int>, executed: nat)
    requires retry.maxAttempts >= 1 && |env| >= Limit(retry, RetryableRequest(verb, endpoint, idempotencyKey))
    modifies breaker
    ensures Report(result, trace, waits, executed, breaker.State())
         == Attempts(breaker.policy, retry, old(breaker.State()), 1,
             Limit(retry, RetryableRequest(verb, endpoint, idempotencyKey)), env)
  {
    hide DelayOf, AllowStep, ObserveStep, Repeats, HeaderOf, ResultOf, RetryableRequest;
    var attempts := 1;
    if RetryableRequest(verb, endpoint, idempotencyKey) {
      attempts := retry.maxAttempts;
    }
    ghost var expected := Attempts(breaker.policy, retry, breaker.State(), 1, attempts, env);
    trace, waits, executed, result := [], [], 0, CircuitOpen;
    var attempt := 1;
    while attempt <= attempts
      invariant 1 <= attempt <= attempts
      invariant var rest := Attempts(breaker.policy, retry, breaker.State(), attempt, attempts, env);
                expected == Report(rest.result, trace + rest.trace, waits + rest.waits, executed + rest.executed,
                    rest.breaker)
    {
      var e := env[attempt - 1];
      ghost var rest := Attempts(breaker.policy, retry, breaker.State(), attempt, attempts, env);
      var allowed := breaker.Allow(e.allowAt);
      if !allowed {
        return CircuitOpen, trace + [Allow(e.allowAt)], waits, executed;
      }
      var availabilityFailure := AvailabilityFailure(e.outcome);
      breaker.Observe(availabilityFailure, e.observeAt);
      ghost var before := trace;
      trace, executed := trace + [Allow(e.allowAt), Observe(availabilityFailure, e.observeAt)], executed + 1;
      if attempt == attempts || !Repeats(e.outcome) {
        return ResultOf(e.outcome), trace, waits, executed;
      }
      var delay := RetryDelay(retry, attempt, HeaderOf(e.outcome), e.delayAt);
      if delay > 0 && !e.waited {
        return Interrupted, trace, waits + [delay], executed;
      }
      ghost var next := Attempts(breaker.policy, retry, breaker.State(), attempt + 1, attempts, env);
      assert before + rest.trace == trace + next.trace;
      assert waits + rest.waits == (waits + [delay]) + next.waits;
      waits := waits + [delay];
      attempt := attempt + 1;
    }
    assert false;
  }

  // ----- What every call keeps -----

  /** The breaker after further events. */
  function Continue(policy: BreakerPolicy, s: BreakerState, events: seq<Event>): BreakerState
    decreases |events|
  {
    if events == [] then s else Continue(policy, Step(policy, s, events[0]), events[1..])
  }

  /** Every admitted Allow is followed at once by its one Observe, `executed` times over; a refused Allow, if any, ends
      the call. */
  predicate Paired(policy: BreakerPolicy, s: BreakerState, trace: seq<Event>, executed: nat, refused: bool)
    decreases executed
  {
    if executed == 0 then
      if refused then |trace| == 1 && trace[0].Allow? && !AllowStep(s, trace[0].now).1 else trace == []
    else
      && |trace| >= 2 && trace[0].Allow? && AllowStep(s, trace[0].now).1 && trace[1].Observe?
      && Paired(policy, Step(policy, Step(policy, s, trace[0]), trace[1]), trace[2..], executed - 1, refused)
  }

  /** The wait after attempt number `attempt`. */
  function DelayAt(retry: RetryPolicy, env: seq<Attempt>, attempt: nat): int
    requires 1 <= attempt <= |env|
  {
    DelayOf(retry, attempt, HeaderOf(env[attempt - 1].outcome), env[attempt - 1].delayAt)
  }

  /** Every admitted Allow has its Observe, the trace accounts for every change of the breaker, and the attempts are
      bounded. */
  lemma {:induction false} CallKeeps(policy: BreakerPolicy, retry: RetryPolicy, s: BreakerState, attempt: nat,
                                     limit: nat, env: seq<Attempt>)
    requires 1 <= attempt <= limit <= |env|
    ensures var r := Attempts(policy, retry, s, attempt, limit, env);
            && Paired(policy, s, r.trace, r.executed, r.result.CircuitOpen?)
            && r.breaker == Continue(policy, s, r.trace)
            && r.executed <= limit - attempt + 1
    decreases limit - attempt
  {
    hide DelayOf, AllowStep, ObserveStep;
    var e := env[attempt - 1];
    var (admittedState, admitted) := AllowStep(s, e.allowAt);
    var failed := AvailabilityFailure(e.outcome);
    var observed := ObserveStep(policy, admittedState, failed, e.observeAt);
    var r := Attempts(policy, retry, s, attempt, limit, env);
    if admitted {
      assert r.trace[0] == Allow(e.allowAt) && r.trace[1] == Observe(failed, e.observeAt);
      assert observed == Step(policy, Step(policy, s, r.trace[0]), r.trace[1]);
      ContinueTwo(policy, s, r.trace);
      if attempt < limit && Repeats(e.outcome) {
        CallKeeps(policy, retry, observed, attempt + 1, limit, env);
        var rest := Attempts(policy, retry, observed, attempt + 1, limit, env);
        assert r.trace == [r.trace[0], r.trace[1]] || r.trace[2..] == rest.trace;
      }
    }
  }

  /** A wait follows an execution and precedes another attempt, and is the delay of its attempt. */
  lemma {:induction false} CallWaits(policy: BreakerPolicy, retry: RetryPolicy, s: BreakerState, attempt: nat,
                                     limit: nat, env: seq<Attempt>)
    requires 1 <= attempt <= limit <= |env|
    ensures var r := Attempts(policy, retry, s, attempt, limit, env);
            && |r.waits| <= r.executed && |r.waits| <= limit - attempt
            && (forall i | 0 <= i < |r.waits| :: r.waits[i] == DelayAt(retry, env, attempt + i))
    decreases limit - attempt
  {
    hide DelayOf, AllowStep, ObserveStep;
    var e := env[attempt - 1];
    var admittedState := AllowStep(s, e.allowAt).0;
    var observed := ObserveStep(policy, admittedState, AvailabilityFailure(e.outcome), e.observeAt);
    var r := Attempts(policy, retry, s, attempt, limit, env);
    if attempt < limit {
      CallWaits(policy, retry, observed, attempt + 1, limit, env);
      var rest := Attempts(policy, retry, observed, attempt + 1, limit, env);
      forall i | 0 <= i < |r.waits|
        ensures r.waits[i] == DelayAt(retry, env, attempt + i)
      {
        if i > 0 {
          assert r.waits[i] == rest.waits[i - 1];
          assert attempt + 1 + (i - 1) == attempt + i;
        }
      }
    }
  }

  lemma ContinueTwo(policy: BreakerPolicy, s: BreakerState, events: seq<Event>)
    requires |events| >= 2
    ensures Continue(policy, s, events)
              == Continue(policy, Step(policy, Step(policy, s, events[0]), events[1]), events[2..])
  {
    hide Step;
    assert events[1..][0] == events[1] && events[1..][1..] == events[2..];
  }

  /** A call pairs its breaker calls, executes at most MaxAttempts times, at most once when the request must not be
      repeated, leaves no probe of its own behind, and waits within the configured bounds. */
  lemma CallBounds(policy: BreakerPolicy, retry: RetryPolicy, s: BreakerState, replaySafe: bool, env: seq<Attempt>)
    requires Normal(retry) && |env| >= Limit(retry, replaySafe)
    ensures var r := Attempts(policy, retry, s, 1, Limit(retry, replaySafe), env);
            && Paired(policy, s, r.trace, r.executed, r.result.CircuitOpen?)
            && r.executed <= retry.maxAttempts && (!replaySafe ==> r.executed <= 1 && r.waits == [])
            && (!s.probeActive ==> !r.breaker.probeActive)
            && (NoOverflow(retry) ==> forall w | w in r.waits :: retry.initialBackoff <= w <= retry.maxBackoff)
  {
    hide DelayOf, NoOverflow, Attempts;
    var r := Attempts(policy, retry, s, 1, Limit(retry, replaySafe), env);
    CallKeeps(policy, retry, s, 1, Limit(retry, replaySafe), env);
    CallWaits(policy, retry, s, 1, Limit(retry, replaySafe), env);
    if !s.probeActive {
      PairedLeavesNoProbe(policy, s, r.trace, r.executed, r.result.CircuitOpen?);
    }
    if NoOverflow(retry) {
      forall w | w in r.waits
        ensures retry.initialBackoff <= w <= retry.maxBackoff
      {
        var i :| 0 <= i < |r.waits| && r.waits[i] == w;
        DelayBounds(retry, 1 + i, HeaderOf(env[i].outcome), env[i].delayAt);
      }
    }
  }

  lemma {:induction false} PairedLeavesNoProbe(policy: BreakerPolicy, s: BreakerState, trace: seq<Event>,
                                               executed: nat, refused: bool)
    requires Paired(policy, s, trace, executed, refused) && !s.probeActive
    ensures !Continue(policy, s, trace).probeActive
    decreases executed
  {
    if executed > 0 {
      ContinueTwo(policy, s, trace);
      PairedLeavesNoProbe(policy, Step(policy, Step(policy, s, trace[0]), trace[1]), trace[2..], executed - 1, refused);
    } else if refused {
      assert trace[1..] == [];
    }
  }
}
