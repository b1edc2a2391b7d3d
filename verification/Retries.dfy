/** The two retry loops around provider calls: exponential backoff for AWS requests, linear backoff for
    provider operations.  `attempts(i)` is what the `i`th call would do.
 */
module Retries {
  import opened Wrappers

  /** The `response` attribute of an exception: missing, a mapping that holds an error code or none, or a
      value such as `None` in which no code can be looked up. */
  datatype Response = NoResponse | Coded(code: Option<string>) | Unreadable

  datatype Error = Error(message: string, response: Response)

  datatype Attempt<+R> = Returns(result: R) | Raises(error: Error)

  /** How a loop ends: with a result, with the error of an attempt, or with the error of looking for a code
      where there is none.  A loop that makes no attempt has nothing to return or raise. */
  datatype Outcome<+R> = Result(result: R) | Exception(error: Error) | AttributeError | NoAttempt

  const RETRY_CODES := [
    "Throttling", "ThrottlingException", "RequestLimitExceeded",
    "ServiceUnavailable", "InternalError", "InternalFailure"
  ]

  /** `should_retry`; `None` when it raises. */
  function ShouldRetry(e: Error): Option<bool> {
    match e.response
    case NoResponse => Some(false)
    case Coded(code) => Some(code.Some? && code.value in RETRY_CODES)
    case Unreadable => None
  }

  function Min(a: int, b: int): int {
    if a <= b then a else b
  }

  function Pow2(n: nat): nat {
    if n == 0 then 1 else 2 * Pow2(n - 1)
  }

  /** How the last of `n` calls ends the loop. */
  function EndOf<R>(a: Attempt<R>): Outcome<R> {
    match a
    case Returns(r) => Result(r)
    case Raises(e) => Exception(e)
  }

  /** The loop goes on after a call. */
  predicate GoesOn<R>(a: Attempt<R>) {
    a.Raises? && ShouldRetry(a.error) == Some(true)
  }

  /** Whether to retry cannot be told after a call. */
  predicate Untold<R>(a: Attempt<R>) {
    a.Raises? && ShouldRetry(a.error) == None
  }

  /** How many calls are made when `n` are allowed and the first `i` have been made. */
  function CallsFrom<R>(attempts: nat -> Attempt<R>, i: nat, n: nat): (calls: nat)
    requires i < n
    ensures i < calls <= n
    ensures forall k :: i <= k < calls - 1 ==> GoesOn(attempts(k))
    ensures calls < n ==> !GoesOn(attempts(calls - 1))
    decreases n - i
  {
    if i + 1 < n && GoesOn(attempts(i)) then CallsFrom(attempts, i + 1, n) else i + 1
  }

  lemma {:induction false} CallsFromIs<R>(attempts: nat -> Attempt<R>, i: nat, n: nat, k: nat)
    requires i <= k < n && (k + 1 == n || !GoesOn(attempts(k)))
    requires forall j :: i <= j < k ==> GoesOn(attempts(j))
    ensures CallsFrom(attempts, i, n) == k + 1
    decreases k - i
  {
    if i < k {
      CallsFromIs(attempts, i + 1, n, k);
    }
  }

  /** The calls made: up to the first one after which the loop does not go on. */
  function CallsMade<R>(attempts: nat -> Attempt<R>, maxRetries: int): nat {
    if maxRetries < 0 then 0 else CallsFrom(attempts, 0, maxRetries + 1)
  }

  /** How the loop ends. */
  function Ending<R>(attempts: nat -> Attempt<R>, maxRetries: int): Outcome<R> {
    var calls := CallsMade(attempts, maxRetries);
    if calls == 0 then NoAttempt
    else if calls <= maxRetries && Untold(attempts(calls - 1)) then AttributeError
    else EndOf(attempts(calls - 1))
  }

  /** The delay after attempt `i`. */
  function Delay(base: int, cap: int, i: nat): int {
    Min(base * Pow2(i), cap)
  }

  /** The first `n` delays. */
  function Backoff(base: int, cap: int, n: nat): (ds: seq<int>)
    ensures |ds| == n
  {
    if n == 0 then [] else Backoff(base, cap, n - 1) + [Delay(base, cap, n - 1)]
  }

  /** What the loop has come to when it stops after attempt `k`. */
  lemma StopsHere<R>(attempts: nat -> Attempt<R>, maxRetries: int, k: nat)
    requires k <= maxRetries && forall i :: 0 <= i < k ==> GoesOn(attempts(i))
    ensures k == maxRetries || !GoesOn(attempts(k)) ==>
              && CallsMade(attempts, maxRetries) == k + 1
              && Ending(attempts, maxRetries) ==
                 if k < maxRetries && Untold(attempts(k)) then AttributeError else EndOf(attempts(k))
  {
    if k == maxRetries || !GoesOn(attempts(k)) {
      CallsFromIs(attempts, 0, maxRetries + 1, k);
    }
  }

  /** The error is one to retry: the service answered, with one of these codes. */
  predicate IsTransient(e: Error) {
    e.response.Coded? && e.response.code.Some? &&
    var c := e.response.code.value;
    || c == "Throttling" || c == "ThrottlingException" || c == "RequestLimitExceeded"
    || c == "ServiceUnavailable" || c == "InternalError" || c == "InternalFailure"
  }

  lemma ShouldRetryIff(e: Error)
    ensures ShouldRetry(e) == Some(true) <==> IsTransient(e)
    ensures ShouldRetry(e) == None <==> e.response.Unreadable?
  {
  }

  /** How calls go: every one but the last raised an error to retry, the last did not unless there was no
      further try, and it decides the end. */
  ghost predicate Went<R>(attempts: nat -> Attempt<R>, maxRetries: nat, calls: nat, outcome: Outcome<R>) {
    && 1 <= calls <= maxRetries + 1
    && (forall i :: 0 <= i < calls - 1 ==> attempts(i).Raises? && IsTransient(attempts(i).error))
    && (match attempts(calls - 1)
        case Returns(r) => outcome == Result(r)
        case Raises(e) =>
          && (calls <= maxRetries ==> !IsTransient(e))
          && outcome == if calls <= maxRetries && e.response.Unreadable? then AttributeError else Exception(e))
  }

  lemma CallsWent<R>(attempts: nat -> Attempt<R>, maxRetries: nat)
    ensures Went(attempts, maxRetries, CallsMade(attempts, maxRetries), Ending(attempts, maxRetries))
  {
    var calls := CallsMade(attempts, maxRetries);
    forall i | 0 <= i < calls && attempts(i).Raises?
      ensures GoesOn(attempts(i)) <==> IsTransient(attempts(i).error)
    {
      ShouldRetryIff(attempts(i).error);
    }
    if attempts(calls - 1).Raises? {
      ShouldRetryIff(attempts(calls - 1).error);
    }
  }

  method ExecuteWithRetry<R>(attempts: nat -> Attempt<R>, maxRetries: int, base: int, cap: int)
    returns (outcome: Outcome<R>, calls: nat, delays: seq<int>)
    ensures calls == CallsMade(attempts, maxRetries) && outcome == Ending(attempts, maxRetries)
    ensures maxRetries < 0 ==> calls == 0 && outcome == NoAttempt && delays == []
    ensures maxRetries >= 0 ==> Went(attempts, maxRetries, calls, outcome)
    ensures maxRetries >= 0 ==> 1 <= calls <= maxRetries + 1
    ensures maxRetries >= 0 ==>
              (outcome == EndOf(attempts(calls - 1)) <==> !(calls <= maxRetries && Untold(attempts(calls - 1))))
    ensures forall i :: 0 <= i < calls - 1 ==> GoesOn(attempts(i))
    ensures 1 <= calls <= maxRetries ==> !GoesOn(attempts(calls - 1))
    ensures calls > 0 ==> delays == Backoff(base, cap, calls - 1)
  {
    if maxRetries >= 0 {
      CallsWent(attempts, maxRetries);
    }
    var lastException: Option<Error> := None;
    var attempt := 0;
    calls, delays := 0, [];
    while attempt < maxRetries + 1
      invariant 0 <= attempt && (attempt <= maxRetries || attempt == 0)
      invariant calls == attempt && delays == Backoff(base, cap, attempt)
      invariant attempt == 0 ==> lastException == None
      invariant forall i :: 0 <= i < attempt ==> GoesOn(attempts(i))
    {
      var a := attempts(attempt);
      calls := calls + 1;
      StopsHere(attempts, maxRetries, attempt);
      if a.Returns? {
        return Result(a.result), calls, delays;
      }
      lastException := Some(a.error);
      if attempt == maxRetries {
        break;
      }
      var retry := ShouldRetry(a.error);
      if retry.None? {
        return AttributeError, calls, delays;
      }
      if !retry.value {
        break;
      }
      delays := delays + [Delay(base, cap, attempt)];
      attempt := attempt + 1;
    }
    outcome := if lastException.Some? then Exception(lastException.value) else NoAttempt;
  }

  /** The attempts after which the loop raises another error than the last attempt's: the first one not to
      be retried for sure has an unreadable response, and a further one was allowed. */
  lemma ErrorReplacedIff<R>(attempts: nat -> Attempt<R>, maxRetries: int)
    requires maxRetries >= 0
    ensures Ending(attempts, maxRetries) == AttributeError <==>
            exists k: nat :: k < maxRetries && Untold(attempts(k)) && forall i :: 0 <= i < k ==> GoesOn(attempts(i))
  {
    var last := CallsMade(attempts, maxRetries) - 1;
    forall k: nat | k < maxRetries && Untold(attempts(k)) && forall i :: 0 <= i < k ==> GoesOn(attempts(i))
      ensures k == last
    {
      CallsFromIs(attempts, 0, maxRetries + 1, k);
    }
    if Ending(attempts, maxRetries) == AttributeError {
      assert Untold(attempts(last));
    }
  }

  function AlwaysRaises<R>(e: Error): nat -> Attempt<R> {
    i => Raises(e)
  }

  /** An error that is lost: of the network, without a response, while retries are left. */
  lemma ErrorReplaced<R>(maxRetries: int) returns (e: Error)
    requires maxRetries >= 0
    ensures Ending<R>(AlwaysRaises(e), maxRetries) == if maxRetries > 0 then AttributeError else Exception(e)
  {
    e := Error("Could not connect to the endpoint URL", Unreadable);
    var attempts: nat -> Attempt<R> := AlwaysRaises(e);
    assert Untold(attempts(0)) && !GoesOn(attempts(0));
  }

  // ----- The delays -----

  function Sum(ds: seq<int>): int {
    if ds == [] then 0 else Sum(ds[..|ds| - 1]) + ds[|ds| - 1]
  }

  lemma {:induction false} DoublingGrows(base: int, i: nat, j: nat)
    requires i <= j && base >= 0
    ensures base * Pow2(i) <= base * Pow2(j)
    decreases j - i
  {
    if i < j {
      DoublingGrows(base, i, j - 1);
      assert base * Pow2(j) == base * Pow2(j - 1) + base * Pow2(j - 1);
      assert 0 <= base * Pow2(j - 1);
    }
  }

  /** How many of the first `n` delays stay below the cap. */
  function Uncapped(base: int, cap: int, n: nat): (k: nat)
    ensures k <= n
  {
    if n == 0 then 0 else Uncapped(base, cap, n - 1) + if base * Pow2(n - 1) < cap then 1 else 0
  }

  lemma {:induction false} UncappedIsPrefix(base: int, cap: int, n: nat)
    requires base >= 0
    ensures forall i :: 0 <= i < n ==> (base * Pow2(i) < cap <==> i < Uncapped(base, cap, n))
    decreases n
  {
    if n > 0 {
      UncappedIsPrefix(base, cap, n - 1);
      if base * Pow2(n - 1) < cap {
        forall i | 0 <= i < n - 1 ensures base * Pow2(i) < cap {
          DoublingGrows(base, i, n - 1);
        }
        assert n == 1 || (base * Pow2(n - 2) < cap && n - 2 < Uncapped(base, cap, n - 1));
      }
    }
  }

  lemma {:induction false} BackoffAt(base: int, cap: int, n: nat, i: nat)
    requires i < n
    ensures Backoff(base, cap, n)[i] == Delay(base, cap, i)
    decreases n
  {
    if i < n - 1 {
      BackoffAt(base, cap, n - 1, i);
    }
  }

  /** The delays never shrink and never exceed the cap. */
  lemma BackoffMonotone(base: int, cap: int, n: nat, i: nat, j: nat)
    requires base >= 0 && i <= j < n
    ensures Backoff(base, cap, n)[i] <= Backoff(base, cap, n)[j] <= cap
  {
    BackoffAt(base, cap, n, i);
    BackoffAt(base, cap, n, j);
    DoublingGrows(base, i, j);
  }

  /** The whole wait: a geometric part up to the cap, then the cap each time. */
  lemma {:induction false} BackoffTotal(base: int, cap: int, n: nat)
    requires base >= 0
    ensures Sum(Backoff(base, cap, n)) == Wait(base, cap, n, Uncapped(base, cap, n))
    decreases n
  {
    if n > 0 {
      BackoffTotal(base, cap, n - 1);
      assert Backoff(base, cap, n)[..n - 1] == Backoff(base, cap, n - 1);
      NextWait(base, cap, n);
    }
  }

  lemma NextWait(base: int, cap: int, n: nat)
    requires base >= 0 && n > 0
    ensures Wait(base, cap, n - 1, Uncapped(base, cap, n - 1)) + Delay(base, cap, n - 1) ==
            Wait(base, cap, n, Uncapped(base, cap, n))
  {
    if base * Pow2(n - 1) < cap {
      NoneCappedYet(base, cap, n);
      NextPower(base, Pow2(n - 1));
    } else {
      NextCap(n - 1 - Uncapped(base, cap, n), cap);
    }
  }

  /** The sum of `n` delays of which `k` stay below the cap. */
  function Wait(base: int, cap: int, n: nat, k: nat): int {
    base * (Pow2(k) - 1) + (n - k) * cap
  }

  lemma NoneCappedYet(base: int, cap: int, n: nat)
    requires base >= 0 && n > 0 && base * Pow2(n - 1) < cap
    ensures Uncapped(base, cap, n) == n && Uncapped(base, cap, n - 1) == n - 1
  {
    UncappedIsPrefix(base, cap, n);
    assert n - 1 < Uncapped(base, cap, n);
  }

  lemma NextPower(base: int, p: int)
    ensures base * (p - 1) + base * p == base * (2 * p - 1)
  {
  }

  lemma NextCap(m: int, cap: int)
    ensures m * cap + cap == (m + 1) * cap
  {
  }

  // ----- Linear backoff -----

  function LinearDelay(delay: real, i: nat): real {
    delay * (i + 1) as real
  }

  function Linear(delay: real, n: nat): (ds: seq<real>)
    ensures |ds| == n
  {
    if n == 0 then [] else Linear(delay, n - 1) + [LinearDelay(delay, n - 1)]
  }

  function RealSum(ds: seq<real>): real {
    if ds == [] then 0.0 else RealSum(ds[..|ds| - 1]) + ds[|ds| - 1]
  }

  /** Every exception is retried here, and the last one is raised. */
  method HandleProviderOperation<R>(attempts: nat -> Attempt<R>, maxRetries: int, delay: real)
    returns (outcome: Outcome<R>, calls: nat, delays: seq<real>)
    ensures maxRetries < 0 ==> calls == 0 && outcome == NoAttempt && delays == []
    ensures maxRetries >= 0 ==> 1 <= calls <= maxRetries + 1 && outcome == EndOf(attempts(calls - 1))
    ensures maxRetries >= 0 ==>
              match attempts(calls - 1)
              case Returns(r) => outcome == Result(r)
              case Raises(e) => outcome == Exception(e)
    ensures forall i :: 0 <= i < calls - 1 ==> attempts(i).Raises?
    ensures 1 <= calls <= maxRetries ==> attempts(calls - 1).Returns?
    ensures calls > 0 ==> delays == Linear(delay, calls - 1)
  {
    var attempt := 0;
    calls, delays := 0, [];
    while attempt < maxRetries + 1
      invariant 0 <= attempt && (attempt <= maxRetries || attempt == 0)
      invariant calls == attempt && delays == Linear(delay, attempt)
      invariant forall i :: 0 <= i < attempt ==> attempts(i).Raises?
    {
      calls := calls + 1;
      match attempts(attempt)
      case Returns(r) =>
        return Result(r), calls, delays;
      case Raises(e) =>
        if attempt == maxRetries {
          return Exception(e), calls, delays;
        }
        delays := delays + [LinearDelay(delay, attempt)];
        attempt := attempt + 1;
    }
    outcome := NoAttempt;
  }

  lemma {:induction false} LinearTotal(delay: real, n: nat)
    ensures RealSum(Linear(delay, n)) == delay * (n * (n + 1)) as real / 2.0
    decreases n
  {
    if n > 0 {
      LinearTotal(delay, n - 1);
      assert Linear(delay, n)[..n - 1] == Linear(delay, n - 1);
      assert (n * (n + 1)) as real == ((n - 1) * n) as real + 2.0 * n as real;
      assert delay * (n * (n + 1)) as real == delay * ((n - 1) * n) as real + 2.0 * (delay * n as real);
    }
  }
}
