/** The bounded retry loop of the remote client: which requests it repeats, how long it waits, how it drives the
    breaker. */
module Retry {
  import opened Wrappers
  import opened Text
  import opened Breaker

  // ----- Configuration -----

  const MILLISECOND := 1_000_000
  const SECOND := 1_000_000_000
  const TWO62 := 0x4000_0000_0000_0000
  const TWO63 := 0x8000_0000_0000_0000
  const TWO64 := 0x1_0000_0000_0000_0000

  datatype RetryPolicy = RetryPolicy(maxAttempts: int, initialBackoff: int, maxBackoff: int)

  /** `normalizedConfig`, on the retry and breaker settings. */
  function NormalRetry(p: RetryPolicy): (r: RetryPolicy)
    ensures r.maxAttempts >= 1 && 0 < r.initialBackoff <= r.maxBackoff
    ensures p.maxAttempts >= 1 && 0 < p.initialBackoff <= p.maxBackoff ==> r == p
  {
    var attempts := if p.maxAttempts <= 0 then 2 else p.maxAttempts;
    var initial := if p.initialBackoff <= 0 then 50 * MILLISECOND else p.initialBackoff;
    var maximum := if p.maxBackoff <= 0 then 500 * MILLISECOND else p.maxBackoff;
    RetryPolicy(attempts, initial, if maximum < initial then initial else maximum)
  }

  function NormalBreaker(p: BreakerPolicy): (r: BreakerPolicy)
    ensures r.failureThreshold >= 1 && r.openDuration > 0
    ensures p.failureThreshold >= 1 && p.openDuration > 0 ==> r == p
  {
    BreakerPolicy(if p.failureThreshold <= 0 then 5 else p.failureThreshold, if p.openDuration <= 0 then 5 * SECOND
        else p.openDuration)
  }

  predicate Normal(p: RetryPolicy) {
    p.maxAttempts >= 1 && 0 < p.initialBackoff <= p.maxBackoff < TWO63
  }

  // ----- Which requests may be repeated -----

  function UpperChar(c: char): char {
    if 'a' <= c <= 'z' then (c as int - 'a' as int + 'A' as int) as char
    else if c == '\U{131}' then 'I'
    else if c == '\U{17F}' then 'S'
    else c
  }

  function Upper(s: string): string {
    if s == "" then "" else [UpperChar(s[0])] + Upper(s[1..])
  }

  function TrimSlashes(s: string): string {
    if s != "" && s[0] == '/' then TrimSlashes(s[1..]) else s
  }

  /** `retryableIdentityRequest`. */
  predicate RetryableRequest(verb: string, endpoint: string, idempotencyKey: string) {
    || Upper(Trim(verb)) in {"GET", "HEAD", "OPTIONS", "PUT"}
    || !Blank(idempotencyKey)
    || "/" + TrimSlashes(endpoint) in {"/identity/access-bundle", "/identity/reauthorize"}
  }

  /** `retryableStatus`. */
  predicate RetryableStatus(status: int) {
    status in {429, 502, 503, 504}
  }

  // ----- Waiting, on 64-bit durations -----

  /** Two's-complement wrap-around of an int64 result. */
  function Wrap(x: int): (r: int)
    ensures -TWO63 <= r < TWO63
    ensures -TWO63 <= x < TWO63 ==> r == x
    ensures TWO63 <= x < TWO64 ==> r == x - TWO64
  {
    (x + TWO63) % TWO64 - TWO63
  }

  /** `k` rounds of the doubling loop. */
  function Doubled(delay: int, k: nat, maximum: int): int
    decreases k
  {
    if k == 0 || delay >= maximum then delay
    else
      var next := Wrap(delay * 2);
      Doubled(if next > maximum then maximum else next, k - 1, maximum)
  }

  function Backoff(p: RetryPolicy, attempt: nat): int
    requires attempt >= 1
  {
    Doubled(p.initialBackoff, attempt - 1, p.maxBackoff)
  }

  /** A Retry-After header: absent or unreadable, a number of seconds, or a date. */
  datatype RetryAfter = NoHeader | Seconds(n: int) | Date(when: int)

  /** `retryAfterDuration`: seconds are multiplied in int64, a difference of times saturates. */
  function RetryAfterDuration(h: RetryAfter, now: int): int {
    match h
    case NoHeader => 0
    case Seconds(n) => if n >= 0 then Wrap(n * SECOND) else 0
    case Date(when) => if when > now then (if when - now >= TWO63 then TWO63 - 1 else when - now) else 0
  }

  /** What `retryDelay` returns, for the header of the response if there was one. A response without the header asks
      for no wait at all, which still lifts a negative delay to zero. */
  function DelayOf(p: RetryPolicy, attempt: nat, response: Option<RetryAfter>, now: int): int
    requires attempt >= 1
  {
    var delay := Backoff(p, attempt);
    var longer := match response
      case Some(h) => Max(RetryAfterDuration(h, now), delay)
      case None => delay;
    Min(longer, p.maxBackoff)
  }

  function Min(a: int, b: int): int {
    if a <= b then a else b
  }

  function Max(a: int, b: int): int {
    if a > b then a else b
  }

  /** `retryDelay`, with its doubling loop. */
  method RetryDelay(p: RetryPolicy, attempt: nat, response: Option<RetryAfter>, now: int) returns (delay: int)
    requires attempt >= 1
    ensures delay == DelayOf(p, attempt, response, now)
  {
    delay := p.initialBackoff;
    var index := 1;
    while index < attempt && delay < p.maxBackoff
      invariant 1 <= index <= attempt
      invariant Doubled(delay, attempt - index, p.maxBackoff) == Backoff(p, attempt)
    {
      delay := Wrap(delay * 2);
      if delay > p.maxBackoff {
        delay := p.maxBackoff;
      }
      index := index + 1;
    }
    if response.Some? {
      var retryAfter := RetryAfterDuration(response.value, now);
      if retryAfter > delay {
        delay := retryAfter;
      }
    }
    if delay > p.maxBackoff {
      return p.maxBackoff;
    }
  }

  function Pow2(k: nat): (r: nat)
    ensures r >= 1
  {
    if k == 0 then 1 else 2 * Pow2(k - 1)
  }

  /** initial * 2^k. */
  function Exponential(p: RetryPolicy, k: nat): int {
    p.initialBackoff * Pow2(k)
  }

  /** No doubling below the maximum leaves the int64 range: there is no exponential step in [2^62, maximum). */
  ghost predicate NoOverflow(p: RetryPolicy) {
    forall k: nat :: Exponential(p, k) < p.maxBackoff ==> Exponential(p, k) < TWO62
  }

  lemma SmallMaximum(p: RetryPolicy)
    requires p.maxBackoff <= TWO62
    ensures NoOverflow(p)
  {
  }

  /** A round that stays in range doubles and caps. */
  lemma {:induction false} DoubledExactly(p: RetryPolicy, j: nat, k: nat)
    requires Normal(p) && NoOverflow(p)
    ensures Doubled(Min(Exponential(p, j), p.maxBackoff), k, p.maxBackoff) == Min(Exponential(p, j + k), p.maxBackoff)
    decreases k
  {
    hide Exponential;
    var delay := Min(Exponential(p, j), p.maxBackoff);
    if k == 0 {
    } else if delay >= p.maxBackoff {
      GrowsBy(p, j, k);
    } else {
      GrowsBy(p, j, k);
      DoublesAt(p, j);
      assert delay == Exponential(p, j) && 0 < delay < TWO62;
      var next := Wrap(delay * 2);
      assert next == Exponential(p, j + 1);
      DoubledExactly(p, j + 1, k - 1);
      assert j + 1 + (k - 1) == j + k;
    }
  }

  lemma {:induction false} GrowsBy(p: RetryPolicy, j: nat, k: nat)
    requires p.initialBackoff > 0
    ensures 0 < Exponential(p, j) <= Exponential(p, j + k)
    decreases k
  {
    assert Exponential(p, j) > 0;
    if k > 0 {
      GrowsBy(p, j, k - 1);
      DoublesAt(p, j + k - 1);
    }
  }

  lemma DoublesAt(p: RetryPolicy, k: nat)
    ensures Exponential(p, k + 1) == 2 * Exponential(p, k)
    ensures Exponential(p, 0) == p.initialBackoff
  {
    assert Pow2(k + 1) == 2 * Pow2(k);
  }

  /** Up to a step that is still below the maximum nothing has wrapped. */
  lemma {:induction false} DoubledBelow(p: RetryPolicy, j: nat, k: nat)
    requires Normal(p) && Exponential(p, j + k) < p.maxBackoff
    ensures Doubled(Exponential(p, j), k, p.maxBackoff) == Exponential(p, j + k)
    decreases k
  {
    hide Exponential;
    if k > 0 {
      GrowsBy(p, j, k);
      GrowsBy(p, j + 1, k - 1);
      DoublesAt(p, j);
      assert j + 1 + (k - 1) == j + k;
      DoubledBelow(p, j + 1, k - 1);
    }
  }

  lemma {:induction false} DoubledOnce(delay: int, k: nat, maximum: int, last: int)
    requires Doubled(delay, k, maximum) == last && last < maximum
    ensures Doubled(delay, k + 1, maximum) == var next := Wrap(last * 2); if next > maximum then maximum else next
    decreases k
  {
    if k > 0 {
      assert delay < maximum;
      var next := Wrap(delay * 2);
      DoubledOnce(if next > maximum then maximum else next, k - 1, maximum, last);
    }
  }

  /** The back-off is min(initial * 2^(n-1), maximum) at every attempt exactly when no step below the maximum reaches
      2^62 ns; otherwise some attempt waits a wrapped, negative time, that is, not at all. */
  lemma BackoffIsExponential(p: RetryPolicy)
    requires Normal(p)
    ensures (forall n: nat | n >= 1 :: Backoff(p, n) == Min(Exponential(p, n - 1), p.maxBackoff)) <==> NoOverflow(p)
    ensures !NoOverflow(p) ==> exists n: nat | n >= 1 :: Backoff(p, n) < 0
  {
    hide Exponential;
    if NoOverflow(p) {
      forall n: nat | n >= 1
        ensures Backoff(p, n) == Min(Exponential(p, n - 1), p.maxBackoff)
      {
        DoublesAt(p, 0);
        DoubledExactly(p, 0, n - 1);
      }
    } else {
      var k: nat :| Exponential(p, k) < p.maxBackoff && Exponential(p, k) >= TWO62;
      DoublesAt(p, 0);
      DoubledBelow(p, 0, k);
      var last := Exponential(p, k);
      DoubledOnce(p.initialBackoff, k, p.maxBackoff, last);
      assert Wrap(last * 2) == last * 2 - TWO64 < 0;
      assert Backoff(p, k + 2) < 0;
      GrowsBy(p, k, 1);
    }
  }

  /** Every wait lies between the initial and the maximal back-off, Retry-After or not, and is the exponential one
      when no header asks for more. */
  lemma DelayBounds(p: RetryPolicy, attempt: nat, response: Option<RetryAfter>, now: int)
    requires Normal(p) && NoOverflow(p) && attempt >= 1
    ensures var delay, exponential :=
              DelayOf(p, attempt, response, now), Min(Exponential(p, attempt - 1), p.maxBackoff);
            && p.initialBackoff <= exponential <= delay <= p.maxBackoff
            && (response.None? || response.value.NoHeader? ==> delay == exponential)
  {
    hide Exponential;
    BackoffIsExponential(p);
    GrowsBy(p, 0, attempt - 1);
    DoublesAt(p, 0);
  }
}
