/** Retry loops and their delays: iterative doubling with a cap, and the closed form. */
module Backoff {

  function Power2(k: nat): (p: real)
    ensures p >= 1.0
  {
    if k == 0 then 1.0 else 2.0 * Power2(k - 1)
  }

  function Min(a: real, b: real): real {
    if a <= b then a else b
  }

  /** The loop variable after `k` rounds of `delay = min(delay * 2, cap)`. */
  function Doubled(base: real, cap: real, k: nat): real {
    if k == 0 then base else Min(Doubled(base, cap, k - 1) * 2.0, cap)
  }

  /** `min(base * 2 ** k, cap)`. */
  function Capped(base: real, cap: real, k: nat): real {
    Min(base * Power2(k), cap)
  }

  /** What the loop sleeps, apart from jitter, is the closed form for any non-negative base and cap. */
  lemma {:induction false} DoublingIsClosedForm(base: real, cap: real, k: nat)
    requires 0.0 <= base && 0.0 <= cap
    ensures Min(Doubled(base, cap, k), cap) == Capped(base, cap, k)
    ensures base <= cap ==> Doubled(base, cap, k) == Capped(base, cap, k)
    ensures 0.0 <= Doubled(base, cap, k)
  {
    if k > 0 {
      DoublingIsClosedForm(base, cap, k - 1);
      assert base * Power2(k) == 2.0 * (base * Power2(k - 1));
    }
  }

  function SumCapped(base: real, cap: real, n: nat): real {
    if n == 0 then 0.0 else SumCapped(base, cap, n - 1) + Capped(base, cap, n - 1)
  }

  /** The most that jitter can add over `n` sleeps: each adds up to `delay * jitter`, with the uncapped first delay. */
  function SumJitter(base: real, cap: real, jitter: real, n: nat): real {
    if n == 0 then 0.0 else SumJitter(base, cap, jitter, n - 1) + Doubled(base, cap, n - 1) * jitter
  }

  lemma Monotone(a: real, b: real, factor: real)
    requires a <= b && 0.0 <= factor
    ensures a * factor <= b * factor
  {
  }

  /** One more sleep of at most `each`. */
  lemma OneMore(n: nat, each: real, before: real, sleep: real)
    requires n > 0 && before <= (n - 1) as real * each && sleep <= each
    ensures before + sleep <= n as real * each
  {
    assert n as real * each == (n - 1) as real * each + each;
  }

  /** With base <= cap a sleep is at most cap * (1 + jitter). */
  lemma SleepAtMost(base: real, cap: real, jitter: real, k: nat)
    requires 0.0 <= base <= cap && 0.0 <= jitter
    ensures Capped(base, cap, k) + Doubled(base, cap, k) * jitter <= cap + cap * jitter
  {
    DoublingIsClosedForm(base, cap, k);
    Monotone(Doubled(base, cap, k), cap, jitter);
  }

  lemma {:induction false} SumsAreBounded(base: real, cap: real, jitter: real, n: nat)
    requires 0.0 <= base <= cap && 0.0 <= jitter
    ensures SumCapped(base, cap, n) + SumJitter(base, cap, jitter, n) <= n as real * (cap + cap * jitter)
  {
    hide Capped, Doubled;
    if n > 0 {
      SumsAreBounded(base, cap, jitter, n - 1);
      SleepAtMost(base, cap, jitter, n - 1);
      OneMore(n, cap + cap * jitter,
              SumCapped(base, cap, n - 1) + SumJitter(base, cap, jitter, n - 1),
              Capped(base, cap, n - 1) + Doubled(base, cap, n - 1) * jitter);
    }
  }

  /** The longest total sleep of a call with `retries` attempts. */
  lemma SleepIsBounded(base: real, cap: real, jitter: real, n: nat, retries: int)
    requires 0.0 <= base <= cap && 0.0 <= jitter && n < retries
    ensures SumCapped(base, cap, n) + SumJitter(base, cap, jitter, n) <= (retries - 1) as real * (cap + cap * jitter)
  {
    hide SumCapped, SumJitter;
    SumsAreBounded(base, cap, jitter, n);
    NonNegative(cap, jitter);
    FewerSleeps(n, retries - 1, cap + cap * jitter);
  }

  lemma NonNegative(a: real, b: real)
    requires 0.0 <= a && 0.0 <= b
    ensures 0.0 <= a * b
  {
  }

  lemma FewerSleeps(n: nat, most: nat, each: real)
    requires n <= most && 0.0 <= each
    ensures n as real * each <= most as real * each
  {
    Monotone(n as real, most as real, each);
  }

  /** One call of the retried function. `Fatal` is an exception outside `retry_on`. */
  datatype Outcome = Returned(value: int) | Retryable(error: int) | Fatal(error: int)

  /** What `retry` does: return, let an exception through, or reach its last line. */
  datatype Result = Value(value: int) | Raised(error: int) | Exhausted

  /** The first `n` calls all ended in a retryable exception. */
  predicate AllRetryable(call: nat -> Outcome, n: nat) {
    forall k: nat :: k < n ==> call(k).Retryable?
  }

  /** `random.uniform(0, most)`. */
  method Uniform(most: real) returns (u: real)
    ensures 0.0 <= most ==> 0.0 <= u <= most
  {
    u := *;
    if !(0.0 <= u <= most) { u := 0.0; }
  }

  /** What has been slept after one more round, with the loop variable that the next round starts from. */
  lemma OneMoreRound(base: real, cap: real, jitter: real, k: nat, slept: real, u: real)
    requires 0.0 <= base && 0.0 <= cap && 0.0 <= jitter
    requires SumCapped(base, cap, k) <= slept <= SumCapped(base, cap, k) + SumJitter(base, cap, jitter, k)
    requires 0.0 <= u <= Doubled(base, cap, k) * jitter
    ensures var more := slept + (Min(Doubled(base, cap, k), cap) + u);
      SumCapped(base, cap, k + 1) <= more <= SumCapped(base, cap, k + 1) + SumJitter(base, cap, jitter, k + 1)
    ensures Doubled(base, cap, k + 1) == Min(Doubled(base, cap, k) * 2.0, cap)
  {
    DoublingIsClosedForm(base, cap, k);
    hide Capped, Doubled;
  }

  /**
   `retry` and `retry_async`; `call(k)` is the outcome of the k-th call. Jitter is any value that
   `random.uniform` may give.
   */
  method Retry(call: nat -> Outcome, retries: int, base: real, cap: real, jitter: real)
    returns (result: Result, calls: nat, slept: real)
    requires 0.0 <= base && 0.0 <= cap && 0.0 <= jitter
    ensures result == Exhausted <==> retries <= 0
    ensures retries <= 0 ==> calls == 0 && slept == 0.0
    ensures retries >= 1 ==> 1 <= calls <= retries && AllRetryable(call, calls - 1)
    ensures retries >= 1 ==>
      match call(calls - 1)
      case Returned(v) => result == Value(v)
      case Fatal(e) => result == Raised(e)
      case Retryable(e) => result == Raised(e) && calls == retries
    ensures retries >= 1 ==> SumCapped(base, cap, calls - 1) <= slept
    ensures retries >= 1 ==> slept <= SumCapped(base, cap, calls - 1) + SumJitter(base, cap, jitter, calls - 1)
    ensures retries >= 1 && base <= cap ==> slept <= (retries - 1) as real * (cap + cap * jitter)
  {
    hide SumCapped, SumJitter, Doubled, Min, AllRetryable;
    NothingYet(call, base, cap, jitter);
    var delay := base;
    calls, slept := 0, 0.0;
    if retries <= 0 { return Exhausted, 0, 0.0; }
    for attempt := 0 to retries
      invariant calls == attempt && AllRetryable(call, attempt) && attempt < retries
      invariant delay == Doubled(base, cap, attempt)
      invariant SumCapped(base, cap, attempt) <= slept
      invariant slept <= SumCapped(base, cap, attempt) + SumJitter(base, cap, jitter, attempt)
    {
      calls := calls + 1;
      if base <= cap { SleepIsBounded(base, cap, jitter, attempt, retries); }
      match call(attempt) {
        case Returned(v) => return Value(v), calls, slept;
        case Fatal(e) => return Raised(e), calls, slept;
        case Retryable(e) =>
          if attempt == retries - 1 { return Raised(e), calls, slept; }
      }
      DoublingIsClosedForm(base, cap, attempt);
      NonNegative(delay, jitter);
      var u := Uniform(delay * jitter);
      OneMoreRound(base, cap, jitter, attempt, slept, u);
      OneMoreCall(call, attempt);
      slept := slept + (Min(delay, cap) + u);
      delay := Min(delay * 2.0, cap);
    }
    assert false;
  }

  lemma NothingYet(call: nat -> Outcome, base: real, cap: real, jitter: real)
    ensures AllRetryable(call, 0) && Doubled(base, cap, 0) == base
    ensures SumCapped(base, cap, 0) == 0.0 && SumJitter(base, cap, jitter, 0) == 0.0
  {
  }

  lemma OneMoreCall(call: nat -> Outcome, n: nat)
    requires AllRetryable(call, n) && call(n).Retryable?
    ensures AllRetryable(call, n + 1)
  {
  }

  // ---------------------------------------------------------------- starting the cache consumer

  /** The last start attempt of `range(1, 8)`. */
  const START_ATTEMPTS := 7

  /**
   `start_consumer_with_retries`. `starts(k)` says whether attempt k succeeds; attempt 1 includes the
   topic check. `delays` lists what was slept; a failed last attempt sleeps too. False is RuntimeError.
   */
  method StartConsumer(starts: nat -> bool) returns (ok: bool, attempts: nat, delays: seq<real>)
    ensures 1 <= attempts <= 7 && ok == starts(attempts)
    ensures forall k: nat :: 1 <= k < attempts ==> !starts(k)
    ensures !ok ==> attempts == 7
    ensures |delays| == if ok then attempts - 1 else attempts
    ensures forall k: nat :: k < |delays| ==> delays[k] == Capped(1.0, 30.0, k)
  {
    var delay := 1.0;
    attempts, delays := 0, [];
    for attempt := 1 to START_ATTEMPTS + 1
      invariant attempts == attempt - 1 && |delays| == attempts
      invariant delay == Doubled(1.0, 30.0, attempts)
      invariant forall k: nat :: 1 <= k <= attempts ==> !starts(k)
      invariant forall k: nat :: k < |delays| ==> delays[k] == Capped(1.0, 30.0, k)
    {
      attempts := attempt;
      if starts(attempt) { return true, attempts, delays; }
      DoublingIsClosedForm(1.0, 30.0, attempt - 1);
      delays := delays + [delay];
      delay := Min(delay * 2.0, 30.0);
    }
    ok := false;
  }

  // ---------------------------------------------------------------- waiting for topics

  /** One metadata check: all topics there, some missing, or an exception. */
  datatype Check = Available | Missing | CheckError

  /** The delays in seconds, of the start retries of the cache consumer and of topic checks that start at 5. */
  lemma DelaysAreThese()
    ensures Capped(1.0, 30.0, 0) == 1.0 && Capped(1.0, 30.0, 1) == 2.0 && Capped(1.0, 30.0, 2) == 4.0
    ensures Capped(1.0, 30.0, 3) == 8.0 && Capped(1.0, 30.0, 4) == 16.0
    ensures forall k: nat :: k >= 5 ==> Capped(1.0, 30.0, k) == 30.0
    ensures Capped(5.0, 60.0, 0) == 5.0 && Capped(5.0, 60.0, 1) == 10.0 && Capped(5.0, 60.0, 2) == 20.0
    ensures Capped(5.0, 60.0, 3) == 40.0 && forall k: nat :: k >= 4 ==> Capped(5.0, 60.0, k) == 60.0
  {
    assert Power2(1) == 2.0 && Power2(2) == 4.0 && Power2(3) == 8.0 && Power2(4) == 16.0 && Power2(5) == 32.0;
    forall k: nat | k >= 4 ensures Power2(k) >= 16.0 && (k >= 5 ==> Power2(k) >= 32.0) {
      PowersGrow(4, k);
      if k >= 5 { PowersGrow(5, k); }
    }
  }

  lemma {:induction false} PowersGrow(a: nat, b: nat)
    requires a <= b
    ensures Power2(a) <= Power2(b)
    decreases b
  {
    if a < b { PowersGrow(a, b - 1); }
  }

  /** What may be slept after check `k`. */
  predicate DelayFits(check: Check, k: nat, initial: real, jitter: real, slept: real) {
    match check
    case Available => false
    case Missing => var d := Min(Doubled(initial, 60.0, k), 60.0); d <= slept <= d + d * jitter
    case CheckError => slept == initial
  }

  lemma ErrorDelay(k: nat, initial: real, jitter: real)
    ensures DelayFits(CheckError, k, initial, jitter, initial)
  {
  }

  /** In closed form: no sleep after success, the capped delay up to jitter, the initial delay after an exception. */
  lemma DelayInClosedForm(check: Check, k: nat, initial: real, jitter: real, slept: real)
    requires 0.0 <= initial
    ensures DelayFits(check, k, initial, jitter, slept) <==>
      (check.Missing? && Capped(initial, 60.0, k) <= slept <= Capped(initial, 60.0, k) * (1.0 + jitter))
      || (check.CheckError? && slept == initial)
  {
    DoublingIsClosedForm(initial, 60.0, k);
    var d := Capped(initial, 60.0, k);
    assert d * (1.0 + jitter) == d + d * jitter;
  }

  /** One sleep after a check that found topics missing. */
  method MissingDelay(attempt: nat, initial: real, jitter: real) returns (slept: real)
    requires 0.0 <= initial && 0.0 <= jitter
    ensures DelayFits(Missing, attempt, initial, jitter, slept)
  {
    var delay := Min(initial * Power2(attempt), 60.0);
    DoublingIsClosedForm(initial, 60.0, attempt);
    Monotone(0.0, delay, jitter);
    var u := Uniform(delay * jitter);
    slept := delay + u;
  }

  /**
   `ensure_topics_available` (jitter 0.1) and `_ensure_topics` (no jitter). True means all topics were
   seen; false is the final exception. After check k the sleep is the closed form that doubling would
   reach in k rounds, up to jitter; after an exception it is the initial delay.
   */
  method WaitForTopics(check: nat -> Check, maxRetries: nat, initial: real, jitter: real)
    returns (ok: bool, checks: nat, delays: seq<real>)
    requires 0.0 <= initial && 0.0 <= jitter
    ensures ok <==> exists k: nat :: k < maxRetries && check(k).Available?
    ensures ok ==> 1 <= checks <= maxRetries && check(checks - 1).Available?
    ensures !ok ==> checks == maxRetries
    ensures |delays| == if ok then checks - 1 else checks
    ensures forall k: nat :: k < |delays| ==> DelayFits(check(k), k, initial, jitter, delays[k])
  {
    hide DelayFits;
    checks, delays := 0, [];
    for attempt := 0 to maxRetries
      invariant checks == attempt == |delays|
      invariant forall k: nat :: k < attempt ==> !check(k).Available?
      invariant forall k: nat :: k < |delays| ==> DelayFits(check(k), k, initial, jitter, delays[k])
    {
      checks := checks + 1;
      match check(attempt) {
        case Available =>
          return true, checks, delays;
        case Missing =>
          var slept := MissingDelay(attempt, initial, jitter);
          delays := delays + [slept];
        case CheckError =>
          assert DelayFits(CheckError, attempt, initial, jitter, initial) by { ErrorDelay(attempt, initial, jitter); }
          delays := delays + [initial];
      }
    }
    ok := false;
  }
}
