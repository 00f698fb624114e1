/** The typed HTTP client: classification of one attempt, and the bounded retry loop around it. */
module RetryClient {
  import opened Wrappers

  datatype Method = GET | HEAD | OPTIONS | PUT | DELETE | POST | PATCH

  /** The methods that are retried, among those of section 9.2.2 of RFC 9110. */
  const IDEMPOTENT: set<Method> := {GET, HEAD, OPTIONS, PUT, DELETE}

  /** A response body as seen by the declared response model. */
  datatype Content<V> = Empty | JsonNull | Readable(value: V) | Unreadable

  /** How one attempt ends: a transport error, an answer, or an exception the client does not map. */
  datatype Attempt<V> =
    | TimedOut
    | Unreachable
    | Answered(status: nat, content: Content<V>)
    | Foreign

  datatype Model = Raw | NoContent | Required | Optional

  datatype Value<V> = NoneValue | RawResponse(status: nat, content: Content<V>) | Parsed(value: V)

  datatype Error =
    | ServiceTimeout
    | ServiceUnavailable
    | ServiceNotFound
    | ServiceBadRequest(status: nat)
    | ServiceResponse
    | ServiceCall(status: nat)
    | ForeignError

  function MapHttpError(status: nat): Error {
    if status == 404 then ServiceNotFound
    else if 400 <= status < 500 then ServiceBadRequest(status)
    else if status >= 500 then ServiceUnavailable
    else ServiceCall(status)
  }

  function ParseResponse<V>(status: nat, content: Content<V>, model: Model): Result<Value<V>, Error> {
    match model
    case Raw => Ok(RawResponse(status, content))
    case NoContent => Ok(NoneValue)
    case Optional => (match content
                      case Empty => Ok(NoneValue)
                      case JsonNull => Ok(NoneValue)
                      case Readable(v) => Ok(Parsed(v))
                      case Unreadable => Err(ServiceResponse))
    case Required => if content.Readable? then Ok(Parsed(content.value)) else Err(ServiceResponse)
  }

  /** `_request_once` */
  function Once<V>(attempt: Attempt<V>, model: Model): Result<Value<V>, Error> {
    match attempt
    case TimedOut => Err(ServiceTimeout)
    case Unreachable => Err(ServiceUnavailable)
    case Foreign => Err(ForeignError)
    case Answered(status, content) =>
      if 200 <= status < 300 then ParseResponse(status, content, model) else Err(MapHttpError(status))
  }

  /** What one attempt gives the caller, case by case. */
  lemma OnceByCase<V>(attempt: Attempt<V>, model: Model)
    ensures attempt.TimedOut? ==> Once(attempt, model) == Err(ServiceTimeout)
    ensures attempt.Unreachable? ==> Once(attempt, model) == Err(ServiceUnavailable)
    ensures attempt.Answered? && 200 <= attempt.status < 300 ==>
              var r := Once(attempt, model);
              match attempt.content
              case Readable(v) => model in {Required, Optional} ==> r == Ok(Parsed(v))
              case Unreadable => model in {Required, Optional} ==> r == Err(ServiceResponse)
              case _ => (model == Required ==> r == Err(ServiceResponse)) && (model == Optional ==> r == Ok(NoneValue))
    ensures attempt.Answered? && 200 <= attempt.status < 300 ==>
              Once(attempt, Raw) == Ok(RawResponse(attempt.status, attempt.content))
              && Once(attempt, NoContent) == Ok(NoneValue)
    ensures attempt.Answered? && !(200 <= attempt.status < 300) ==>
              Once(attempt, model) == Err(
                if attempt.status >= 500 then ServiceUnavailable
                else if attempt.status == 404 then ServiceNotFound
                else if attempt.status >= 400 then ServiceBadRequest(attempt.status)
                else ServiceCall(attempt.status))
  {
  }

  predicate Retriable<V>(attempt: Attempt<V>, model: Model) {
    var r := Once(attempt, model);
    r.Err? && (r.error.ServiceUnavailable? || r.error.ServiceTimeout?)
  }

  /** What makes an attempt retriable, in terms of the wire. */
  lemma RetriableIff<V>(attempt: Attempt<V>, model: Model)
    ensures Retriable(attempt, model) <==>
            attempt.TimedOut? || attempt.Unreachable? || (attempt.Answered? && attempt.status >= 500)
  {
  }

  predicate ShouldRetry(m: Method, maxRetries: int) {
    m in IDEMPOTENT && maxRetries > 0
  }

  function Budget(m: Method, maxRetries: int): (b: nat)
    ensures b >= 1
  {
    if ShouldRetry(m, maxRetries) then maxRetries else 1
  }

  /** Number of attempts made when `k` have failed and at most `budget` are allowed. */
  function Attempts<V>(script: nat -> Attempt<V>, model: Model, k: nat, budget: nat): (n: nat)
    requires k < budget
    ensures k < n <= budget
    ensures forall j :: k <= j < n - 1 ==> Retriable(script(j), model)
    ensures n < budget ==> !Retriable(script(n - 1), model)
    decreases budget - k
  {
    if k + 1 == budget || !Retriable(script(k), model) then k + 1 else Attempts(script, model, k + 1, budget)
  }

  /** A transport error, or an answer of 500 and above. */
  predicate Outage<V>(a: Attempt<V>) {
    a.TimedOut? || a.Unreachable? || (a.Answered? && a.status >= 500)
  }

  /**
   * Which calls are retried, and how often: with retries configured, GET, HEAD, OPTIONS,
   * PUT and DELETE go on after an outage until the retries are used up; every other call
   * is one attempt.
   */
  lemma WhoIsRetried<V>(m: Method, script: nat -> Attempt<V>, model: Model, maxRetries: int)
    ensures var n := Attempts(script, model, 0, Budget(m, maxRetries));
      if m in {GET, HEAD, OPTIONS, PUT, DELETE} && maxRetries > 0
      then n <= maxRetries
           && (forall k :: 0 <= k < n - 1 ==> Outage(script(k)))
           && (n < maxRetries ==> !Outage(script(n - 1)))
      else n == 1
  {
    var n := Attempts(script, model, 0, Budget(m, maxRetries));
    forall k | 0 <= k < n ensures Retriable(script(k), model) <==> Outage(script(k)) {
      RetriableIff(script(k), model);
    }
  }

  /** The attempts made are the first non-retriable one and all before it, cut off at the budget. */
  lemma AttemptsIsFirstDecisive<V>(script: nat -> Attempt<V>, model: Model, budget: nat, first: nat)
    requires budget > 0
    requires forall j :: 0 <= j < first ==> Retriable(script(j), model)
    ensures first >= budget ==> Attempts(script, model, 0, budget) == budget
    ensures first < budget && !Retriable(script(first), model) ==> Attempts(script, model, 0, budget) == first + 1
  {
  }

  // ----- exponential backoff -----

  function Pow2(k: nat): (p: nat)
    ensures p >= 1
  {
    if k == 0 then 1 else 2 * Pow2(k - 1)
  }

  function RMax(a: real, b: real): real {
    if a < b then b else a
  }

  function RMin(a: real, b: real): real {
    if a < b then a else b
  }

  /** `wait_exponential(multiplier=1, min=lo, max=hi)` after failed attempt `k`. */
  function Delay(k: nat, lo: real, hi: real): real
    requires k >= 1
  {
    RMax(RMax(0.0, lo), RMin(Pow2(k - 1) as real, hi))
  }

  /** The time slept before attempt `n`. */
  function TotalDelay(n: nat, lo: real, hi: real): real {
    if n <= 1 then 0.0 else TotalDelay(n - 1, lo, hi) + Delay(n - 1, lo, hi)
  }

  lemma {:induction false} Pow2Monotone(a: nat, b: nat)
    requires a <= b
    ensures Pow2(a) <= Pow2(b)
    decreases b
  {
    if a < b {
      Pow2Monotone(a, b - 1);
    }
  }

  lemma DelaysNeverDecrease(j: nat, k: nat, lo: real, hi: real)
    requires 1 <= j <= k
    ensures 0.0 <= Delay(j, lo, hi) <= Delay(k, lo, hi) <= RMax(0.0, RMax(lo, hi))
  {
    Pow2Monotone(j - 1, k - 1);
  }

  lemma OneMore(total: real, delay: real, k: nat, bound: real)
    requires total <= k as real * bound && delay <= bound
    ensures total + delay <= (k + 1) as real * bound
  {
  }

  lemma {:induction false} TotalDelayIsBounded(n: nat, lo: real, hi: real)
    requires n >= 1
    ensures TotalDelay(n, lo, hi) <= (n - 1) as real * RMax(0.0, RMax(lo, hi))
  {
    hide Delay, RMax;
    if n > 1 {
      TotalDelayIsBounded(n - 1, lo, hi);
      DelaysNeverDecrease(n - 1, n - 1, lo, hi);
      OneMore(TotalDelay(n - 1, lo, hi), Delay(n - 1, lo, hi), n - 2, RMax(0.0, RMax(lo, hi)));
    }
  }

  /** What the lower clamp adds to, and the upper clamp takes from, the pure powers of two. */
  function Raised(n: nat, lo: real): real {
    if n <= 1 then 0.0 else Raised(n - 1, lo) + RMax(0.0, RMax(0.0, lo) - Pow2(n - 2) as real)
  }

  function Cut(n: nat, lo: real, hi: real): (c: real)
    ensures c >= 0.0
  {
    if n <= 1 then 0.0 else Cut(n - 1, lo, hi) + RMax(0.0, Pow2(n - 2) as real - RMax(RMax(0.0, lo), hi))
  }

  /** The total is the geometric sum, plus what was raised, minus what was cut: equal to the sum iff these balance. */
  lemma {:induction false} TotalDelayBalance(n: nat, lo: real, hi: real)
    requires n >= 1
    ensures TotalDelay(n, lo, hi) == (Pow2(n - 1) - 1) as real + Raised(n, lo) - Cut(n, lo, hi)
  {
    if n > 1 {
      TotalDelayBalance(n - 1, lo, hi);
    }
  }

  lemma {:induction false} NothingRaised(n: nat, lo: real)
    requires lo <= 1.0
    ensures Raised(n, lo) == 0.0
  {
    if n > 1 {
      NothingRaised(n - 1, lo);
    }
  }

  lemma {:induction false} NothingCutIff(n: nat, lo: real, hi: real)
    requires n >= 2
    ensures Cut(n, lo, hi) == 0.0 <==> Pow2(n - 2) as real <= RMax(lo, hi)
  {
    if n > 2 {
      NothingCutIff(n - 1, lo, hi);
      Pow2Monotone(n - 3, n - 2);
    } else {
      assert Cut(1, lo, hi) == 0.0;
    }
  }

  /** With a lower clamp of at most one, as configured by default, the total is geometric iff the last power fits. */
  lemma TotalIsGeometricIff(n: nat, lo: real, hi: real)
    requires n >= 2 && lo <= 1.0
    ensures TotalDelay(n, lo, hi) == (Pow2(n - 1) - 1) as real <==> Pow2(n - 2) as real <= RMax(lo, hi)
  {
    TotalDelayBalance(n, lo, hi);
    NothingRaised(n, lo);
    NothingCutIff(n, lo, hi);
  }

  /** Before every attempt but the first the pure power of two is slept. */
  ghost predicate Unclamped(n: nat, lo: real, hi: real) {
    forall k :: 1 <= k < n ==> Delay(k, lo, hi) == Pow2(k - 1) as real
  }

  /** For all clamps: the delays are the pure powers iff the first is not raised and the last is not cut. */
  lemma DelaysArePurePowersIff(n: nat, lo: real, hi: real)
    requires n >= 2
    ensures Unclamped(n, lo, hi) <==> lo <= 1.0 && Pow2(n - 2) as real <= RMax(lo, hi)
  {
    if Unclamped(n, lo, hi) {
      assert Delay(1, lo, hi) == Pow2(0) as real && Delay(n - 1, lo, hi) == Pow2(n - 2) as real;
    } else {
      var k :| 1 <= k < n && Delay(k, lo, hi) != Pow2(k - 1) as real;
      Pow2Monotone(k - 1, n - 2);
    }
  }

  /** With a larger lower clamp the two effects can cancel: 2 + 2 + 3 is 1 + 2 + 4. */
  lemma GeometricTotalWithClampedDelays()
    ensures TotalDelay(4, 2.0, 3.0) == (Pow2(3) - 1) as real && Delay(1, 2.0, 3.0) != Pow2(0) as real
  {
  }

  // ----- the loop -----

  /** `_request_with_retry`: at most `maxRetries` attempts, sleeping between them; the trailing raise is dead code. */
  method RequestWithRetry<V>(script: nat -> Attempt<V>, model: Model, maxRetries: nat, lo: real, hi: real)
    returns (outcome: Result<Value<V>, Error>, attempts: nat, slept: real)
    requires maxRetries > 0
    ensures attempts == Attempts(script, model, 0, maxRetries)
    ensures outcome == Once(script(attempts - 1), model)
    ensures slept == TotalDelay(attempts, lo, hi)
  {
    attempts, slept := 0, 0.0;
    while attempts < maxRetries
      invariant attempts < maxRetries
      invariant Attempts(script, model, attempts, maxRetries) == Attempts(script, model, 0, maxRetries)
      invariant slept == TotalDelay(attempts + 1, lo, hi)
    {
      outcome := Once(script(attempts), model);
      attempts := attempts + 1;
      if !Retriable(script(attempts - 1), model) || attempts == maxRetries {
        return;
      }
      slept := slept + Delay(attempts, lo, hi);
    }
    assert false;
  }

  /** `request`: retried for idempotent methods only. */
  method Request<V>(m: Method, script: nat -> Attempt<V>, model: Model, maxRetries: int, lo: real, hi: real)
    returns (outcome: Result<Value<V>, Error>, attempts: nat)
    ensures attempts == Attempts(script, model, 0, Budget(m, maxRetries))
    ensures outcome == Once(script(attempts - 1), model)
    ensures m in {GET, HEAD, OPTIONS, PUT, DELETE} && maxRetries > 0 ==>
              attempts <= maxRetries
              && (forall k :: 0 <= k < attempts - 1 ==> Outage(script(k)))
              && (attempts < maxRetries ==> !Outage(script(attempts - 1)))
    ensures m in {POST, PATCH} || maxRetries <= 0 ==> attempts == 1
  {
    WhoIsRetried(m, script, model, maxRetries);
    if ShouldRetry(m, maxRetries) {
      var slept;
      outcome, attempts, slept := RequestWithRetry(script, model, maxRetries, lo, hi);
    } else {
      outcome, attempts := Once(script(0), model), 1;
    }
  }
}
