/** The retry policy that the ingestion pipeline puts around its calls into the
    embedding and vision services: tenacity's `retry_if_exception_type(RateLimitError)`
    with `stop_after_attempt(n)`. Only the attempt count is modelled; the
    randomized exponential waits between attempts are not.
 */
module Retry {

  /** What one attempt of an external call does. */
  datatype Attempt<T> = Returned(value: T) | RateLimited | Raised(error: string)

  /** What the retrying wrapper hands back to its caller: the value, the
      non-rate-limit error re-raised unchanged, or tenacity's `RetryError`
      once the attempt ceiling is reached. */
  datatype Outcome<T> = Done(value: T) | Failed(error: string) | GaveUp

  /** `compute_embedding` stops after 15 attempts. */
  const EmbeddingAttempts: nat := 15
  /** `scan_page_image` stops after 30 attempts. */
  const VisionAttempts: nat := 30

  /** tenacity makes the first attempt even for a ceiling of zero. */
  function Ceiling(maxAttempts: nat): nat
  {
    if maxAttempts == 0 then 1 else maxAttempts
  }

  /** The outcome that a final attempt stands for. */
  function Settle<T>(a: Attempt<T>): Outcome<T>
  {
    match a
    case Returned(v) => Done(v)
    case Raised(e) => Failed(e)
    case RateLimited => GaveUp
  }

  /** The outcome of the retrying wrapper: the first attempt that is not
      rate limited, or the last attempt the ceiling allows. */
  function Retried<T>(call: nat -> Attempt<T>, maxAttempts: nat): Outcome<T>
  {
    RetriedFrom(call, Ceiling(maxAttempts), 0)
  }

  function RetriedFrom<T>(call: nat -> Attempt<T>, ceiling: nat, k: nat): Outcome<T>
    requires k < ceiling
    decreases ceiling - k
  {
    if !call(k).RateLimited? || k + 1 == ceiling then Settle(call(k)) else RetriedFrom(call, ceiling, k + 1)
  }

  /** Calls `call(0)`, `call(1)`, ... while the attempt is rate limited and the
      ceiling is not reached. `call(k)` is what attempt `k` would do. */
  method CallWithRetry<T>(call: nat -> Attempt<T>, maxAttempts: nat) returns (r: Outcome<T>, attempts: nat)
    ensures 1 <= attempts <= Ceiling(maxAttempts)
    ensures forall k :: 0 <= k < attempts - 1 ==> call(k).RateLimited?
    ensures !call(attempts - 1).RateLimited? || attempts == Ceiling(maxAttempts)
    ensures r == Settle(call(attempts - 1))
    ensures r == Retried(call, maxAttempts)
  {
    attempts := 1;
    var a := call(0);
    while a.RateLimited? && attempts < maxAttempts
      invariant 1 <= attempts <= Ceiling(maxAttempts)
      invariant a == call(attempts - 1)
      invariant forall k :: 0 <= k < attempts - 1 ==> call(k).RateLimited?
      invariant RetriedFrom(call, Ceiling(maxAttempts), attempts - 1) == Retried(call, maxAttempts)
      decreases maxAttempts - attempts
    {
      a := call(attempts);
      attempts := attempts + 1;
    }
    r := Settle(a);
  }

  /** The wrapper gives up exactly when every attempt the ceiling allows is
      rate limited. */
  lemma RetriedGivesUp<T>(call: nat -> Attempt<T>, maxAttempts: nat)
    ensures Retried(call, maxAttempts).GaveUp? <==> forall k :: 0 <= k < Ceiling(maxAttempts) ==> call(k).RateLimited?
  {
    RetriedFromGivesUp(call, Ceiling(maxAttempts), 0);
  }

  lemma {:induction false} RetriedFromGivesUp<T>(call: nat -> Attempt<T>, ceiling: nat, k: nat)
    requires k < ceiling
    ensures RetriedFrom(call, ceiling, k).GaveUp? <==> forall j :: k <= j < ceiling ==> call(j).RateLimited?
    decreases ceiling - k
  {
    if call(k).RateLimited? && k + 1 < ceiling {
      RetriedFromGivesUp(call, ceiling, k + 1);
    }
  }

  /** Otherwise the wrapper hands back what the first attempt that is not
      rate limited does: its value, or its error re-raised. */
  lemma RetriedSettles<T>(call: nat -> Attempt<T>, maxAttempts: nat, k: nat)
    requires k < Ceiling(maxAttempts) && !call(k).RateLimited?
    requires forall j :: 0 <= j < k ==> call(j).RateLimited?
    ensures Retried(call, maxAttempts) == Settle(call(k))
  {
    RetriedFromSettles(call, Ceiling(maxAttempts), 0, k);
  }

  lemma {:induction false} RetriedFromSettles<T>(call: nat -> Attempt<T>, ceiling: nat, i: nat, k: nat)
    requires i <= k < ceiling && !call(k).RateLimited?
    requires forall j :: i <= j < k ==> call(j).RateLimited?
    ensures RetriedFrom(call, ceiling, i) == Settle(call(k))
    decreases k - i
  {
    if i < k {
      RetriedFromSettles(call, ceiling, i + 1, k);
    }
  }
}
