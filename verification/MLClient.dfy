/** The retry loop of the prediction client (backend/internal/mlclient/client.go, lines 70-98).

    Time is in milliseconds. One call of `doOnce` is described by how long it takes, which its
    per-attempt deadline bounds, and by what it returns; the caller's context may end at any time. */
module MLClient {
  import opened Arithmetic
  import opened Common

  datatype Attempt<R> = Attempt(duration: nat, response: Option<R>)

  datatype Reply<R> = Response(value: R) | ContextEnded | Unavailable(attempts: int)

  /** maxRetries attempts and the doubling pauses between them. */
  function ServiceBound(maxRetries: int, timeout: nat): nat
  {
    if maxRetries <= 0 then 0 else maxRetries * timeout + 100 * (Pow2(maxRetries - 1) - 1)
  }

  predicate EndedBy(contextEnd: Option<nat>, t: nat)
  {
    contextEnd.Some? && contextEnd.value <= t
  }

  /** The longest the first `n` attempts take, with the pauses after them. */
  function SpentBy(n: nat, timeout: nat): nat
  {
    if n == 0 then 0 else SpentBy(n - 1, timeout) + timeout + 100 * Pow2(n - 1)
  }

  /** The service bound is the time of all attempts and of all pauses but the last. */
  lemma {:induction false} SpentClosedForm(n: nat, timeout: nat)
    ensures SpentBy(n, timeout) == n * timeout + 100 * (Pow2(n) - 1)
    ensures SpentBy(n, timeout) + timeout == ServiceBound(n + 1, timeout)
  {
    if n > 0 {
      SpentClosedForm(n - 1, timeout);
    }
    assert (n + 1) * timeout == n * timeout + timeout;
  }

  lemma {:induction false} SpentGrows(m: nat, n: nat, timeout: nat)
    requires m <= n
    ensures SpentBy(m, timeout) <= SpentBy(n, timeout)
    decreases n - m
  {
    if m < n {
      SpentGrows(m + 1, n, timeout);
    }
  }

  /** The calls made so far began at `starts`: the first at once, none after the context had ended, all but possibly
      the last failed, and the pauses between them were 100ms, 200ms, 400ms, ... */
  ghost predicate Calls<R>(attempt: nat -> Attempt<R>, contextEnd: Option<nat>, starts: seq<nat>)
  {
    && (starts != [] ==> starts[0] == 0)
    && (forall k | 0 <= k < |starts| && contextEnd.Some? :: starts[k] < contextEnd.value)
    && (forall k | 0 <= k < |starts| - 1 :: Retried(attempt, starts, k))
  }

  ghost predicate Retried<R>(attempt: nat -> Attempt<R>, starts: seq<nat>, k: nat)
    requires k < |starts| - 1
  {
    && attempt(k).response.None?
    && starts[k + 1] == starts[k] + attempt(k).duration + 100 * Pow2(k)
  }

  /** When the last of the calls begun at `starts` has ended. */
  function EndOf<R>(attempt: nat -> Attempt<R>, starts: seq<nat>): nat
    requires starts != []
  {
    starts[|starts| - 1] + attempt(|starts| - 1).duration
  }

  lemma CallsExtend<R>(attempt: nat -> Attempt<R>, contextEnd: Option<nat>, starts: seq<nat>, t: nat)
    requires Calls(attempt, contextEnd, starts) && !EndedBy(contextEnd, t)
    requires starts != [] ==> attempt(|starts| - 1).response.None?
    requires t == if starts == [] then 0 else EndOf(attempt, starts) + 100 * Pow2(|starts| - 1)
    ensures Calls(attempt, contextEnd, starts + [t])
  {
    var after := starts + [t];
    forall k | 0 <= k < |after| - 1
      ensures Retried(attempt, after, k)
    {
      if k < |starts| - 1 {
        assert Retried(attempt, starts, k);
      }
    }
  }

  function Later(a: nat, b: nat): (t: nat)
    ensures t >= a && t >= b && (t == a || t == b)
  {
    if a < b then b else a
  }

  /** What the caller may rely on. A context that ends is noticed at once, or when the call that is
      under way ends. */
  ghost predicate Answered<R>(maxRetries: int, attempt: nat -> Attempt<R>, contextEnd: Option<nat>,
                              starts: seq<nat>, reply: Reply<R>, elapsed: nat)
  {
    match reply
    case Response(v) => starts != [] && attempt(|starts| - 1).response == Some(v) && elapsed == EndOf(attempt, starts)
    case ContextEnded =>
      && contextEnd.Some? && (starts != [] ==> attempt(|starts| - 1).response.None?)
      && elapsed == Later(contextEnd.value, if starts == [] then 0 else EndOf(attempt, starts))
    case Unavailable(n) =>
      && n == maxRetries && |starts| == (if maxRetries <= 0 then 0 else maxRetries)
      && (starts != [] ==> attempt(|starts| - 1).response.None? && elapsed == EndOf(attempt, starts))
  }

  /** `attempt(k)` is what the k-th call does; `starts` are the times at which calls began. */
  method Predict<R>(maxRetries: int, timeout: nat, attempt: nat -> Attempt<R>, contextEnd: Option<nat>)
    returns (reply: Reply<R>, elapsed: nat, starts: seq<nat>)
    requires forall k :: attempt(k).duration <= timeout
    ensures elapsed <= ServiceBound(maxRetries, timeout)
    ensures |starts| <= if maxRetries <= 0 then 0 else maxRetries
    ensures Calls(attempt, contextEnd, starts)
    ensures Answered(maxRetries, attempt, contextEnd, starts, reply, elapsed)
  {
    elapsed, starts := 0, [];
    var backoff := 100;
    var n := 1;
    while n <= maxRetries
      invariant 1 <= n && (n <= maxRetries + 1 || n == 1)
      invariant |starts| == n - 1
      invariant n <= maxRetries ==> backoff == 100 * Pow2(n - 1) && elapsed <= SpentBy(n - 1, timeout)
      invariant n > maxRetries ==> elapsed <= ServiceBound(maxRetries, timeout)
      invariant Calls(attempt, contextEnd, starts)
      invariant starts == [] ==> elapsed == 0
      invariant starts != [] && n <= maxRetries ==> !EndedBy(contextEnd, elapsed)
      invariant starts != [] ==>
        && attempt(n - 2).response.None?
        && elapsed == EndOf(attempt, starts) + if n <= maxRetries then 100 * Pow2(n - 2) else 0
      decreases maxRetries - n
    {
      PauseFits(n, maxRetries, timeout);
      if EndedBy(contextEnd, elapsed) {
        return ContextEnded, elapsed, starts;
      }
      CallsExtend(attempt, contextEnd, starts, elapsed);
      starts := starts + [elapsed];
      var once := attempt(n - 1);
      elapsed := elapsed + once.duration;
      if once.response.Some? {
        return Response(once.response.value), elapsed, starts;
      }
      if n < maxRetries {
        if EndedBy(contextEnd, elapsed + backoff) {
          elapsed := if EndedBy(contextEnd, elapsed) then elapsed else contextEnd.value;
          return ContextEnded, elapsed, starts;
        }
        elapsed := elapsed + backoff;
        backoff := backoff * 2;
      }
      n := n + 1;
    }
    reply := Unavailable(maxRetries);
  }

  /** Before the n-th attempt there is still room for it, and for the pause if another follows. */
  lemma PauseFits(n: nat, maxRetries: int, timeout: nat)
    requires 1 <= n <= maxRetries
    ensures SpentBy(n - 1, timeout) + timeout <= ServiceBound(maxRetries, timeout)
    ensures n < maxRetries ==> SpentBy(n, timeout) <= ServiceBound(maxRetries, timeout)
  {
    SpentGrows(n - 1, maxRetries - 1, timeout);
    SpentClosedForm(maxRetries - 1, timeout);
    if n < maxRetries {
      SpentGrows(n, maxRetries - 1, timeout);
    }
  }
}
