/** The bounded retry loop every agent call goes through: `for attempt in
    range(max_retries)`, returning the first good result, and on the last failed attempt
    the fallback that failure produces. */
module Retry {
  import opened PyBuiltins

  /** What one attempt produced: a result to return at once, or a failure together with
      the value the loop returns when this was the last attempt. */
  datatype Attempt<T> = Done(value: T) | Failed(fallback: T)

  /** The value the loop returns when it starts at attempt i (None: the loop ends without
      returning, as `range(max_retries)` does for max_retries <= 0). */
  function RetryFrom<T>(attempts: nat -> Attempt<T>, i: nat, maxRetries: int): Option<T>
    decreases maxRetries - i
  {
    if i >= maxRetries then None
    else
      match attempts(i)
      case Done(v) => Some(v)
      case Failed(fallback) => if i == maxRetries - 1 then Some(fallback) else RetryFrom(attempts, i + 1, maxRetries)
  }

  function Retried<T>(attempts: nat -> Attempt<T>, maxRetries: int): Option<T>
  {
    RetryFrom(attempts, 0, maxRetries)
  }

  /** Number of attempts made when starting at attempt i. */
  function AttemptsFrom<T>(attempts: nat -> Attempt<T>, i: nat, maxRetries: int): nat
    decreases maxRetries - i
  {
    if i >= maxRetries then 0
    else if attempts(i).Done? || i == maxRetries - 1 then 1
    else 1 + AttemptsFrom(attempts, i + 1, maxRetries)
  }

  /** The loop itself, proved to return what `Retried` specifies after the number of
      attempts `AttemptsFrom` counts. */
  method RunRetry<T>(attempts: nat -> Attempt<T>, maxRetries: int) returns (r: Option<T>, used: nat)
    ensures r == Retried(attempts, maxRetries)
    ensures used == AttemptsFrom(attempts, 0, maxRetries)
  {
    var attempt: nat := 0;
    while attempt < maxRetries
      invariant Retried(attempts, maxRetries) == RetryFrom(attempts, attempt, maxRetries)
      invariant AttemptsFrom(attempts, 0, maxRetries) == attempt + AttemptsFrom(attempts, attempt, maxRetries)
      decreases maxRetries - attempt
    {
      match attempts(attempt) {
        case Done(v) =>
          return Some(v), attempt + 1;
        case Failed(fallback) =>
          if attempt == maxRetries - 1 {
            return Some(fallback), attempt + 1;
          }
      }
      attempt := attempt + 1;
    }
    return None, attempt;
  }

  /** At most max_retries attempts, and at least one when max_retries >= 1. */
  lemma {:induction false} AttemptsBounded<T>(attempts: nat -> Attempt<T>, i: nat, maxRetries: int)
    requires i < maxRetries
    ensures 1 <= AttemptsFrom(attempts, i, maxRetries) <= maxRetries - i
    decreases maxRetries - i
  {
    if attempts(i).Failed? && i < maxRetries - 1 {
      AttemptsBounded(attempts, i + 1, maxRetries);
    }
  }

  /** The loop returns nothing exactly when it makes no attempt. */
  lemma RetriedNone<T>(attempts: nat -> Attempt<T>, maxRetries: int)
    ensures Retried(attempts, maxRetries).None? <==> maxRetries <= 0
  {
    if maxRetries > 0 {
      RetryFromSome(attempts, 0, maxRetries);
    }
  }

  lemma {:induction false} RetryFromSome<T>(attempts: nat -> Attempt<T>, i: nat, maxRetries: int)
    requires i < maxRetries
    ensures RetryFrom(attempts, i, maxRetries).Some?
    decreases maxRetries - i
  {
    if attempts(i).Failed? && i < maxRetries - 1 {
      RetryFromSome(attempts, i + 1, maxRetries);
    }
  }

  /** The first attempt that succeeds decides the result when every earlier one failed. */
  lemma {:induction false} RetriedFirstSuccess<T>(attempts: nat -> Attempt<T>, maxRetries: int, k: nat)
    requires k < maxRetries && attempts(k).Done?
    requires forall j :: 0 <= j < k ==> attempts(j).Failed?
    ensures Retried(attempts, maxRetries) == Some(attempts(k).value)
    ensures AttemptsFrom(attempts, 0, maxRetries) == k + 1
  {
    var i := k;
    while i > 0
      invariant 0 <= i <= k
      invariant RetryFrom(attempts, i, maxRetries) == Some(attempts(k).value)
      invariant AttemptsFrom(attempts, i, maxRetries) == k + 1 - i
    {
      i := i - 1;
      assert attempts(i).Failed?;
    }
  }

  /** When every attempt fails, the result is the last attempt's fallback. */
  lemma {:induction false} RetriedExhausted<T>(attempts: nat -> Attempt<T>, maxRetries: int)
    requires maxRetries >= 1
    requires forall j :: 0 <= j < maxRetries ==> attempts(j).Failed?
    ensures Retried(attempts, maxRetries) == Some(attempts(maxRetries - 1).fallback)
    ensures AttemptsFrom(attempts, 0, maxRetries) == maxRetries
  {
    var i := maxRetries - 1;
    while i > 0
      invariant 0 <= i <= maxRetries - 1
      invariant RetryFrom(attempts, i, maxRetries) == Some(attempts(maxRetries - 1).fallback)
      invariant AttemptsFrom(attempts, i, maxRetries) == maxRetries - i
    {
      i := i - 1;
      assert attempts(i).Failed?;
    }
  }

  /** Conversely, every result is one of those two: the value of the first success, or the
      fallback of the last attempt after all failed. */
  lemma {:induction false} RetriedCases<T>(attempts: nat -> Attempt<T>, maxRetries: int, v: T) returns (k: nat)
    requires Retried(attempts, maxRetries) == Some(v)
    ensures k < maxRetries
    ensures forall j :: 0 <= j < k ==> attempts(j).Failed?
    ensures attempts(k) == Done(v) || (k == maxRetries - 1 && attempts(k) == Failed(v))
  {
    k := 0;
    while attempts(k).Failed? && k < maxRetries - 1
      invariant k < maxRetries
      invariant RetryFrom(attempts, k, maxRetries) == Some(v)
      invariant forall j :: 0 <= j < k ==> attempts(j).Failed?
      decreases maxRetries - k
    {
      k := k + 1;
    }
  }
}
