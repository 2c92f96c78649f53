/** The remote call said in the terms of its request and of what came back: which requests are repeated, what is
    reported to the breaker, and why a call ends. */
module ClientLaws {
  import opened Text
  import opened Breaker
  import opened Retry
  import opened Client

  // ----- Which requests may be repeated -----

  /** The letter reads as that capital when letters are capitalised; two letters outside ASCII do too. */
  predicate ReadsAs(c: char, capital: char) {
    || c == capital
    || ('A' <= capital <= 'Z' && c as int == capital as int + 32)
    || (c == '\U{131}' && capital == 'I')
    || (c == '\U{17F}' && capital == 'S')
  }

  predicate Spells(text: string, word: string) {
    |text| == |word| && forall i | 0 <= i < |word| :: ReadsAs(text[i], word[i])
  }

  /** Some number of slashes, and then the path. */
  predicate LeadsTo(endpoint: string, path: string) {
    exists n: nat | n <= |endpoint| :: endpoint[n..] == path && forall i | 0 <= i < n :: endpoint[i] == '/'
  }

  /** The requests that may be sent twice: reading verbs and PUT in any letter case, those with an idempotency key, and
      two endpoints that only ask. */
  predicate MayRepeat(verb: string, endpoint: string, idempotencyKey: string) {
    || Spells(Trim(verb), "GET") || Spells(Trim(verb), "HEAD") || Spells(Trim(verb), "OPTIONS")
    || Spells(Trim(verb), "PUT")
    || Trim(idempotencyKey) != ""
    || LeadsTo(endpoint, "identity/access-bundle") || LeadsTo(endpoint, "identity/reauthorize")
  }

  predicate Capital(word: string) {
    forall c | c in word :: 'A' <= c <= 'Z'
  }

  lemma {:induction false} UpperSpells(text: string, word: string)
    requires Capital(word)
    ensures Upper(text) == word <==> Spells(text, word)
  {
    if text != "" && word != "" {
      assert word[0] in word && forall c | c in word[1..] :: c in word;
      UpperSpells(text[1..], word[1..]);
      assert word == [word[0]] + word[1..];
      if Spells(text, word) {
        assert forall i | 0 <= i < |word| - 1 :: ReadsAs(text[1..][i], word[1..][i]);
        assert ReadsAs(text[0], word[0]);
      }
      if Upper(text) == word {
        assert Upper(text)[0] == word[0] && Upper(text)[1..] == word[1..];
        forall i | 0 <= i < |word|
          ensures ReadsAs(text[i], word[i])
        {
          if i > 0 {
            assert text[i] == text[1..][i - 1] && word[i] == word[1..][i - 1];
          }
        }
      }
    }
  }

  lemma {:induction false} SlashesLead(endpoint: string, path: string)
    requires path != "" && path[0] != '/'
    ensures TrimSlashes(endpoint) == path <==> LeadsTo(endpoint, path)
  {
    if endpoint != "" && endpoint[0] == '/' {
      SlashesLead(endpoint[1..], path);
      if LeadsTo(endpoint[1..], path) {
        var n: nat :| n <= |endpoint| - 1 && endpoint[1..][n..] == path
            && forall i | 0 <= i < n :: endpoint[1..][i] == '/';
        assert endpoint[n + 1..] == path;
        assert forall i | 0 < i < n + 1 :: endpoint[i] == endpoint[1..][i - 1];
      }
      if LeadsTo(endpoint, path) {
        var n: nat :| n <= |endpoint| && endpoint[n..] == path && forall i | 0 <= i < n :: endpoint[i] == '/';
        assert n > 0 && endpoint[1..][n - 1..] == path;
      }
    } else if TrimSlashes(endpoint) == path {
      assert endpoint[0..] == path;
    }
  }

  lemma RepeatMeaning(verb: string, endpoint: string, idempotencyKey: string)
    ensures RetryableRequest(verb, endpoint, idempotencyKey) <==> MayRepeat(verb, endpoint, idempotencyKey)
  {
    VerbMeaning(Trim(verb));
    EndpointMeaning(endpoint);
    hide Upper, Spells, LeadsTo, TrimSlashes, Trim;
  }

  lemma VerbMeaning(verb: string)
    ensures Upper(verb) == "GET" <==> Spells(verb, "GET")
    ensures Upper(verb) == "HEAD" <==> Spells(verb, "HEAD")
    ensures Upper(verb) == "OPTIONS" <==> Spells(verb, "OPTIONS")
    ensures Upper(verb) == "PUT" <==> Spells(verb, "PUT")
  {
    UpperSpells(verb, "GET");
    UpperSpells(verb, "HEAD");
    UpperSpells(verb, "OPTIONS");
    UpperSpells(verb, "PUT");
    hide Upper, Spells;
  }

  lemma EndpointMeaning(endpoint: string)
    ensures "/" + TrimSlashes(endpoint) == "/identity/access-bundle" <==> LeadsTo(endpoint, "identity/access-bundle")
    ensures "/" + TrimSlashes(endpoint) == "/identity/reauthorize" <==> LeadsTo(endpoint, "identity/reauthorize")
  {
    PathMeaning(endpoint, "identity/access-bundle");
    PathMeaning(endpoint, "identity/reauthorize");
    hide LeadsTo, TrimSlashes;
    assert "/identity/access-bundle" == "/" + "identity/access-bundle";
    assert "/identity/reauthorize" == "/" + "identity/reauthorize";
  }

  lemma PathMeaning(endpoint: string, path: string)
    requires path != "" && path[0] != '/'
    ensures "/" + TrimSlashes(endpoint) == "/" + path <==> LeadsTo(endpoint, path)
  {
    SlashesLead(endpoint, path);
    hide LeadsTo, TrimSlashes;
    Slashed(TrimSlashes(endpoint), path);
  }

  lemma Slashed(s: string, t: string)
    ensures "/" + s == "/" + t <==> s == t
  {
    assert ("/" + s)[1..] == s && ("/" + t)[1..] == t;
  }

  // ----- The call -----

  /** What `DoWithHeaders` reports for a request. */
  function Call(policy: BreakerPolicy, retry: RetryPolicy, s: BreakerState, verb: string, endpoint: string,
                idempotencyKey: string, env: seq<Attempt>): Report
    requires retry.maxAttempts >= 1 && |env| >= Limit(retry, RetryableRequest(verb, endpoint, idempotencyKey))
  {
    Attempts(policy, retry, s, 1, Limit(retry, RetryableRequest(verb, endpoint, idempotencyKey)), env)
  }

  predicate Unavailable(o: Outcome) {
    o.TransportFailure? || o.status >= 500
  }

  predicate TryAgain(o: Outcome) {
    if o.Response? then o.status == 429 || o.status == 502 || o.status == 503 || o.status == 504 else o.retryable
  }

  /** The last answer is final, or there is no attempt left. */
  predicate Final(r: Report, attempts: nat, env: seq<Attempt>)
    requires r.executed <= attempts <= |env|
  {
    var n := r.executed;
    n > 0 && |r.waits| == n - 1 && |r.trace| == 2 * n && (n == attempts || !TryAgain(env[n - 1].outcome))
  }

  /** Why a call comes back: nothing is sent once the breaker refuses, and otherwise the last answer is final, or out of
      attempts, or its wait was cut short. */
  predicate EndsFor(r: Report, attempts: nat, env: seq<Attempt>)
    requires r.executed <= attempts <= |env|
  {
    var n := r.executed;
    match r.result
    case CircuitOpen => |r.waits| == n && |r.trace| == 2 * n + 1 && r.trace[2 * n].Allow?
    case Interrupted =>
      && 0 < n == |r.waits| < attempts && |r.trace| == 2 * n
      && TryAgain(env[n - 1].outcome) && !env[n - 1].waited && r.waits[n - 1] > 0
    case Answered(status) => Final(r, attempts, env) && env[n - 1].outcome.Response? &&
        env[n - 1].outcome.status == status
    case TransportError => Final(r, attempts, env) && env[n - 1].outcome.TransportFailure?
  }

  /** Execution number `i` of a call, in its trace: an Allow at its own time, and an Observe of whether its own outcome
      was a transport failure or a status of 500 and above. */
  predicate Reported(r: Report, i: nat, e: Attempt) {
    && |r.trace| >= 2 * i + 2
    && r.trace[2 * i] == Allow(e.allowAt) && r.trace[2 * i + 1] == Observe(Unavailable(e.outcome), e.observeAt)
  }

  /** An answer worth repeating, and its wait over. */
  predicate Repeated(r: Report, i: nat, e: Attempt) {
    TryAgain(e.outcome) && i < |r.waits| && (e.waited || r.waits[i] <= 0)
  }

  /** Every execution is reported to the breaker as what it was, every one but the last was worth repeating and waited
      for, and the call ends for the reason it gives. */
  predicate Explained(r: Report, attempts: nat, env: seq<Attempt>)
    requires attempts <= |env|
  {
    && r.executed <= attempts && EndsFor(r, attempts, env)
    && (forall i | 0 <= i < r.executed :: Reported(r, i, env[i]))
    && (forall i | 0 <= i < r.executed - 1 :: Repeated(r, i, env[i]))
  }

  lemma {:induction false} LoopExplained(policy: BreakerPolicy, retry: RetryPolicy, s: BreakerState, attempt: nat,
                                         limit: nat, env: seq<Attempt>)
    requires 1 <= attempt <= limit <= |env|
    ensures Explained(Attempts(policy, retry, s, attempt, limit, env), limit - attempt + 1, env[attempt - 1..])
    decreases limit - attempt
  {
    hide DelayOf, AllowStep, ObserveStep;
    var e := env[attempt - 1];
    var r := Attempts(policy, retry, s, attempt, limit, env);
    var (admittedState, admitted) := AllowStep(s, e.allowAt);
    var observed := ObserveStep(policy, admittedState, AvailabilityFailure(e.outcome), e.observeAt);
    OutcomeMeaning(e.outcome);
    if admitted && attempt < limit && TryAgain(e.outcome) {
      var delay := DelayOf(retry, attempt, HeaderOf(e.outcome), e.delayAt);
      if delay <= 0 || e.waited {
        LoopExplained(policy, retry, observed, attempt + 1, limit, env);
        var rest := Attempts(policy, retry, observed, attempt + 1, limit, env);
        assert env[attempt - 1..][1..] == env[attempt..];
        assert r.waits[1..] == rest.waits && r.trace[2..] == rest.trace;
        hide *;
        LongerExplained(r, rest, limit - attempt + 1, env[attempt - 1..]);
      }
    }
  }

  lemma OutcomeMeaning(o: Outcome)
    ensures AvailabilityFailure(o) <==> Unavailable(o)
    ensures Repeats(o) <==> TryAgain(o)
  {
  }

  /** One more execution in front of a call that is explained. */
  lemma LongerExplained(r: Report, rest: Report, attempts: nat, env: seq<Attempt>)
    requires 1 < attempts <= |env| && Explained(rest, attempts - 1, env[1..])
    requires Reported(r, 0, env[0]) && Repeated(r, 0, env[0])
    requires r.trace[2..] == rest.trace && r.waits[1..] == rest.waits
    requires r.executed == rest.executed + 1 && r.result == rest.result
    ensures Explained(r, attempts, env)
  {
    hide Unavailable, TryAgain;
    forall i | 0 <= i < r.executed
      ensures Reported(r, i, env[i])
    {
      if i > 0 {
        assert Reported(rest, i - 1, env[1..][i - 1]);
        assert r.trace[2 * i] == rest.trace[2 * (i - 1)] && r.trace[2 * i + 1] == rest.trace[2 * (i - 1) + 1];
      }
    }
    forall i | 0 <= i < r.executed - 1
      ensures Repeated(r, i, env[i])
    {
      if i > 0 {
        assert Repeated(rest, i - 1, env[1..][i - 1]);
        assert r.waits[i] == rest.waits[i - 1];
      }
    }
  }

  /** A request is sent again only if it may be, and then it is, as long as its answers are worth repeating, its
      attempts and its waits last, and the breaker admits it; and each answer is reported for what it was. */
  lemma RepeatsExactly(policy: BreakerPolicy, retry: RetryPolicy, s: BreakerState, verb: string, endpoint: string,
                       idempotencyKey: string, env: seq<Attempt>)
    requires retry.maxAttempts >= 1 && |env| >= Limit(retry, RetryableRequest(verb, endpoint, idempotencyKey))
    ensures var r := Call(policy, retry, s, verb, endpoint, idempotencyKey, env);
            var attempts := if MayRepeat(verb, endpoint, idempotencyKey) then retry.maxAttempts else 1;
            attempts <= |env| && Explained(r, attempts, env)
  {
    RepeatMeaning(verb, endpoint, idempotencyKey);
    hide Attempts, RetryableRequest, MayRepeat, Explained;
    var attempts := if MayRepeat(verb, endpoint, idempotencyKey) then retry.maxAttempts else 1;
    LoopExplained(policy, retry, s, 1, attempts, env);
    assert env[0..] == env;
  }

  // ----- Configuration -----

  /** What settings that are missing or not positive become: two attempts, 50 and 500 milliseconds, five failures, five
      seconds; and a maximum is never below the initial back-off. */
  lemma Defaults(retry: RetryPolicy, breaker: BreakerPolicy)
    ensures var r, b := NormalRetry(retry), NormalBreaker(breaker);
            && r.maxAttempts == (if retry.maxAttempts > 0 then retry.maxAttempts else 2)
            && r.initialBackoff == (if retry.initialBackoff > 0 then retry.initialBackoff else 50_000_000)
            && (retry.maxBackoff >= r.initialBackoff ==> r.maxBackoff == retry.maxBackoff)
            && (0 < retry.maxBackoff < r.initialBackoff ==> r.maxBackoff == r.initialBackoff)
            && (retry.maxBackoff <= 0 ==> r.maxBackoff == Max(500_000_000, r.initialBackoff))
            && b.failureThreshold == (if breaker.failureThreshold > 0 then breaker.failureThreshold else 5)
            && b.openDuration == (if breaker.openDuration > 0 then breaker.openDuration else 5_000_000_000)
  {
  }

  // ----- How long a call waits -----

  /** The wait an answer asks for, in nanoseconds: that of its Retry-After, in seconds or until a date, if any. */
  function AskedFor(o: Outcome, now: int): int {
    match o
    case Response(_, Seconds(n)) => if n > 0 then n * 1_000_000_000 else 0
    case Response(_, Date(when)) => if when > now then when - now else 0
    case _ => 0
  }

  /** A number of seconds that fits into a duration. */
  predicate Expressible(o: Outcome) {
    o.Response? && o.retryAfter.Seconds? ==> o.retryAfter.n * 1_000_000_000 < TWO63
  }

  /** The wait after an attempt is the exponential back-off, or what the answer asks for if that is longer, and never
      more than the maximum. */
  lemma WaitAsAsked(retry: RetryPolicy, attempt: nat, o: Outcome, now: int)
    requires Normal(retry) && NoOverflow(retry) && attempt >= 1 && Expressible(o)
    ensures var backoff := Min(retry.initialBackoff * Pow2(attempt - 1), retry.maxBackoff);
            DelayOf(retry, attempt, HeaderOf(o), now) == Min(Max(AskedFor(o, now), backoff), retry.maxBackoff)
  {
    BackoffIsExponential(retry);
    GrowsBy(retry, 0, attempt - 1);
    DoublesAt(retry, 0);
    assert Exponential(retry, attempt - 1) == retry.initialBackoff * Pow2(attempt - 1) > 0;
    hide Exponential, NoOverflow, Doubled;
  }

  /** Even once the back-off has wrapped around, an answered attempt is followed by no negative wait, and by the one
      asked for as far as the maximum allows it. */
  lemma AnsweredIsLifted(retry: RetryPolicy, attempt: nat, o: Outcome, now: int)
    requires Normal(retry) && attempt >= 1 && o.Response? && Expressible(o)
    ensures 0 <= Min(AskedFor(o, now), retry.maxBackoff) <= DelayOf(retry, attempt, HeaderOf(o), now)
  {
    hide Backoff;
  }

  /** Every wait of a call is the one after its attempt. */
  lemma WaitsAsAsked(policy: BreakerPolicy, retry: RetryPolicy, s: BreakerState, verb: string, endpoint: string,
                     idempotencyKey: string, env: seq<Attempt>, i: nat)
    requires Normal(retry) && NoOverflow(retry)
    requires |env| >= Limit(retry, RetryableRequest(verb, endpoint, idempotencyKey))
    requires i < |Call(policy, retry, s, verb, endpoint, idempotencyKey, env).waits|
    ensures i < |env|
    ensures Expressible(env[i].outcome) ==>
              Call(policy, retry, s, verb, endpoint, idempotencyKey, env).waits[i]
                == Min(Max(AskedFor(env[i].outcome, env[i].delayAt),
                           Min(retry.initialBackoff * Pow2(i), retry.maxBackoff)), retry.maxBackoff)
  {
    CallWaits(policy, retry, s, 1, Limit(retry, RetryableRequest(verb, endpoint, idempotencyKey)), env);
    hide Attempts, RetryableRequest, DelayOf, NoOverflow, AskedFor, HeaderOf;
    if Expressible(env[i].outcome) {
      WaitAsAsked(retry, i + 1, env[i].outcome, env[i].delayAt);
    }
  }
}
