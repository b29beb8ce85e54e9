/** Retrying an operation on failures that may be transient (HTTP 429, 5xx, network
    errors) with exponential backoff. The operation is a sequence of per-attempt
    outcomes and the timer is recorded as the list of delays slept. */
module Retry {
  import opened Results
  import Strings

  const DefaultRetries: int := 2
  const DefaultDelayMs: int := 1000
  const DefaultBackoff: int := 2

  /** What a rejection carries, as far as `isRetryable` looks at it: an HTTP `status`,
      whether it is a `TypeError`, its `message` and its `code` ("" when absent). */
  datatype Failure = Failure(status: Option<int>, isTypeError: bool, message: Option<string>, code: string)

  /** A retryable HTTP status: rate limiting or a server error. */
  predicate RetryableStatus(s: int) {
    s == 429 || 500 <= s < 600
  }

  /** A connection-level failure: a `fetch` TypeError or a reset, time-out or DNS error code. */
  predicate NetworkFailure(f: Failure) {
    || (f.isTypeError && f.message.Some? && Strings.Contains(f.message.value, "fetch"))
    || f.code == "ECONNRESET" || f.code == "ETIMEDOUT" || f.code == "ENOTFOUND"
  }

  /** `isRetryable(err)`; `None` is a falsy rejection value (`undefined`, `null`). */
  function IsRetryable(err: Option<Failure>): (r: bool)
    ensures err.None? ==> !r
    // with a status, only the status decides: 429 and 5xx retry, every other 4xx does not
    ensures err.Some? && err.value.status.Some? ==> (r <==> RetryableStatus(err.value.status.value))
    ensures err.Some? && err.value.status.Some? && 400 <= err.value.status.value < 500 && err.value.status.value != 429 ==> !r
    // without one, only a network failure retries
    ensures err.Some? && err.value.status.None? ==> (r <==> NetworkFailure(err.value))
  {
    match err
    case None => false
    case Some(f) =>
      if f.status.Some? then
        f.status.value == 429 || (f.status.value >= 500 && f.status.value < 600)
      else
        (f.isTypeError && f.message.Some? && Strings.Contains(f.message.value, "fetch"))
        || f.code == "ECONNRESET" || f.code == "ETIMEDOUT" || f.code == "ENOTFOUND"
  }

  /** `{ retries?, delayMs?, backoff? }`; None is `null` or `undefined`. */
  datatype Options = Options(retries: Option<int>, delayMs: Option<int>, backoff: Option<int>)

  /** The options with `??` defaults applied: a default replaces only a missing value. */
  datatype Effective = Effective(retries: int, delayMs: int, backoff: int)

  function WithDefaults(o: Options): (e: Effective)
    ensures o.retries.None? ==> e.retries == 2
    ensures o.delayMs.None? ==> e.delayMs == 1000
    ensures o.backoff.None? ==> e.backoff == 2
    ensures o.retries.Some? ==> e.retries == o.retries.value
    ensures o.delayMs.Some? ==> e.delayMs == o.delayMs.value
    ensures o.backoff.Some? ==> e.backoff == o.backoff.value
  {
    Effective(o.retries.GetOr(DefaultRetries), o.delayMs.GetOr(DefaultDelayMs), o.backoff.GetOr(DefaultBackoff))
  }

  /** One call of `fn()`: it resolves with a value or rejects with an error. */
  datatype Attempt<T> = Resolved(value: T) | Rejected(error: Option<Failure>)

  /** What `withRetry` settles with. */
  datatype Outcome<T> = Returned(value: T) | Threw(error: Option<Failure>)

  /** The outcome an attempt settles `withRetry` with when it is the last one. */
  function Settle<T>(a: Attempt<T>): Outcome<T> {
    match a
    case Resolved(v) => Returned(v)
    case Rejected(e) => Threw(e)
  }

  function Pow(b: int, k: nat): int {
    if k == 0 then 1 else b * Pow(b, k - 1)
  }

  /** The k-th delay (from 0): `delayMs` multiplied by `backoff` once per earlier retry. */
  function Delay(e: Effective, k: nat): int {
    e.delayMs * Pow(e.backoff, k)
  }

  lemma DelayStep(e: Effective, k: nat)
    ensures Delay(e, k) * e.backoff == Delay(e, k + 1)
  {
    calc {
      Delay(e, k) * e.backoff;
      (e.delayMs * Pow(e.backoff, k)) * e.backoff;
      e.delayMs * (Pow(e.backoff, k) * e.backoff);
      e.delayMs * (e.backoff * Pow(e.backoff, k));
    }
  }

  /** `withRetry(fn, options)`: `fn(i)` is what the i-th call (from 0) of `fn` does;
      `calls` is how many calls were made, `sleeps` the delays slept, in order. */
  method WithRetry<T>(fn: nat -> Attempt<T>, options: Options) returns (out: Outcome<T>, calls: nat, sleeps: seq<int>)
    // at most retries + 1 calls, and at least one unless retries is negative
    ensures var e := WithDefaults(options);
      && (e.retries < 0 ==> calls == 0 && sleeps == [] && out == Threw(None))
      && (e.retries >= 0 ==> 1 <= calls <= e.retries + 1)
    // the result is what the last call settled with; every earlier call failed retryably
    ensures calls >= 1 ==> out == Settle(fn(calls - 1))
    ensures forall i | 0 <= i < calls - 1 :: fn(i).Rejected? && IsRetryable(fn(i).error)
    // stopping before the last allowed attempt means success or a non-retryable error
    ensures calls >= 1 && calls - 1 < WithDefaults(options).retries ==>
              fn(calls - 1).Resolved? || !IsRetryable(fn(calls - 1).error)
    // sleeps happen only between attempts, the k-th lasting delayMs * backoff^k
    ensures calls >= 1 ==> |sleeps| == calls - 1
    ensures forall k | 0 <= k < |sleeps| ::
              sleeps[k] == WithDefaults(options).delayMs * Pow(WithDefaults(options).backoff, k)
  {
    var e := WithDefaults(options);
    var retries := e.retries;
    var delayMs := e.delayMs;
    var backoff := e.backoff;
    var lastError: Option<Failure> := None;
    calls, sleeps := 0, [];
    var attempt := 0;
    while attempt <= retries
      invariant 0 <= attempt && (retries >= 0 ==> attempt <= retries) && (retries < 0 ==> attempt == 0)
      invariant calls == attempt && |sleeps| == attempt
      invariant delayMs == Delay(e, attempt)
      invariant forall k | 0 <= k < |sleeps| :: sleeps[k] == Delay(e, k)
      invariant forall i | 0 <= i < attempt :: fn(i).Rejected? && IsRetryable(fn(i).error)
      invariant attempt == 0 ==> lastError == None
    {
      var a := fn(attempt);
      calls := calls + 1;
      if a.Resolved? {
        out := Returned(a.value);
        return;
      }
      lastError := a.error;
      if attempt == retries || !IsRetryable(a.error) {
        out := Threw(a.error);
        return;
      }
      sleeps := sleeps + [delayMs];
      DelayStep(e, attempt);
      delayMs := delayMs * backoff;
      attempt := attempt + 1;
    }
    out := Threw(lastError);
  }
}
