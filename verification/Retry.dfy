/** The retry loops: with_retry of database/connection.py, and the fetch loop that scraper/base.py and
    scraper/subscription.py share. */
module Retry {
  /** How a call ends.  A ConnectionError is one that with_retry retries; the fetch loop retries
      after any exception. */
  datatype Call<T> = Returned(value: T) | ConnectionError(id: int) | OtherError(id: int)

  datatype Outcome<T> = Value(value: T) | Raised(error: Call<T>) | AssertionFailed

  /** What a loop did: how it ended, how many calls it made, and how long it slept after each. */
  datatype Trace<T> = Trace(outcome: Outcome<T>, calls: nat, delays: seq<real>)

  predicate Retried<T>(c: Call<T>, all: bool) {
    c.ConnectionError? || (all && c.OtherError?)
  }

  function Pow2(k: nat): (p: nat)
    ensures p >= 1
  {
    if k == 0 then 1 else 2 * Pow2(k - 1)
  }

  function Sum(s: seq<real>): real {
    if s == [] then 0.0 else Sum(s[..|s| - 1]) + s[|s| - 1]
  }

  /** Calls 0..k failed in a way that is retried. */
  ghost predicate FailedSoFar<T>(calls: nat -> Call<T>, k: nat, all: bool) {
    forall i: nat :: i < k ==> Retried(calls(i), all)
  }

  /** What both loops promise: the first call that is not to be retried decides; the last error is
      raised only after retries + 1 failures; there is a sleep between two calls and nowhere else. */
  ghost predicate Settles<T>(calls: nat -> Call<T>, retries: int, all: bool, t: Trace<T>) {
    if retries < 0 then t.outcome == AssertionFailed && t.calls == 0 && t.delays == []
    else
      && 1 <= t.calls <= retries + 1 && |t.delays| == t.calls - 1
      && FailedSoFar(calls, t.calls - 1, all)
      && (Retried(calls(t.calls - 1), all) ==> t.calls == retries + 1)
      && t.outcome == match calls(t.calls - 1)
                      case Returned(v) => Value(v)
                      case e => Raised(e)
  }

  /** with_retry; `jitter(k)` is random.uniform(0, 0.5). */
  method WithRetry<T>(calls: nat -> Call<T>, maxRetries: int, jitter: nat -> real) returns (t: Trace<T>)
    requires forall k :: 0.0 <= jitter(k) <= 0.5
    ensures Settles(calls, maxRetries, false, t)
    ensures forall k: nat :: k < |t.delays| ==> t.delays[k] == RetryDelay(k, jitter)
    ensures RetryBounds(|t.delays|, Sum(t.delays))
  {
    var attempt, delays := 0, [];
    while attempt < maxRetries + 1
      invariant 0 <= attempt && |delays| == attempt && (attempt > 0 ==> attempt <= maxRetries)
      invariant FailedSoFar(calls, attempt, false)
      invariant forall k: nat :: k < attempt ==> delays[k] == RetryDelay(k, jitter)
      invariant RetryBounds(attempt, Sum(delays))
    {
      match calls(attempt) {
        case Returned(v) => return Trace(Value(v), attempt + 1, delays);
        case OtherError(_) => return Trace(Raised(calls(attempt)), attempt + 1, delays);
        case ConnectionError(_) =>
          if attempt >= maxRetries {
            return Trace(Raised(calls(attempt)), attempt + 1, delays);
          }
          var delay := RetryDelay(attempt, jitter);
          SumAppend(delays, delay);
          delays := delays + [delay];
      }
      attempt := attempt + 1;
    }
    t := Trace(AssertionFailed, 0, delays);
  }

  /** RETRY_DELAY * 2 ** attempt, plus jitter. */
  function RetryDelay(attempt: nat, jitter: nat -> real): real {
    0.5 * Pow2(attempt) as real + jitter(attempt)
  }

  function FetchDelay(attempt: nat, random: nat -> real): real {
    (0.8 + random(attempt)) * Pow2(attempt) as real
  }

  /** Total backoff after m sleeps of the fetch loop. */
  predicate FetchBounds(m: nat, total: real) {
    0.8 * (Pow2(m) as real - 1.0) <= total <= 1.8 * (Pow2(m) as real - 1.0)
  }

  /** ... and of with_retry. */
  predicate RetryBounds(m: nat, total: real) {
    0.5 * (Pow2(m) as real - 1.0) <= total <= 0.5 * (Pow2(m) as real - 1.0) + 0.5 * m as real
  }

  /** The loop of fetch_channel_html and fetch_subscription; `random(k)` is random.random(). */
  method FetchWithRetry<T>(calls: nat -> Call<T>, retries: int, random: nat -> real) returns (t: Trace<T>)
    requires forall k :: 0.0 <= random(k) < 1.0
    ensures Settles(calls, retries, true, t)
    ensures FetchDelays(t.delays, random) && FetchBounds(|t.delays|, Sum(t.delays))
  {
    var attempt, delays := 0, [];
    while attempt < retries + 1
      invariant 0 <= attempt && |delays| == attempt && (attempt > 0 ==> attempt <= retries)
      invariant FailedSoFar(calls, attempt, true)
      invariant FetchDelays(delays, random)
    {
      FetchTotal(delays, random);
      if calls(attempt).Returned? {
        return Trace(Value(calls(attempt).value), attempt + 1, delays);
      }
      if attempt >= retries {
        return Trace(Raised(calls(attempt)), attempt + 1, delays);
      }
      delays := delays + [FetchDelay(attempt, random)];
      attempt := attempt + 1;
    }
    t := Trace(AssertionFailed, 0, delays);
  }

  ghost predicate FetchDelays(delays: seq<real>, random: nat -> real) {
    forall k: nat :: k < |delays| ==> delays[k] == FetchDelay(k, random)
  }

  lemma {:induction false} FetchTotal(delays: seq<real>, random: nat -> real)
    requires FetchDelays(delays, random) && forall k :: 0.0 <= random(k) < 1.0
    ensures FetchBounds(|delays|, Sum(delays))
  {
    if delays != [] {
      var n := |delays| - 1;
      FetchTotal(delays[..n], random);
      var delay, p := delays[n], Pow2(n) as real;
      Scaled(random(n), p, delay);
      LongerSum(delays[..n], delay, p);
      assert delays == delays[..n] + [delay];
    }
  }

  lemma SumAppend(s: seq<real>, d: real)
    ensures Sum(s + [d]) == Sum(s) + d
  {
    assert (s + [d])[..|s|] == s;
  }

  lemma LongerSum(delays: seq<real>, delay: real, p: real)
    requires 0.8 * p <= delay <= 1.8 * p
    requires 0.8 * (p - 1.0) <= Sum(delays) <= 1.8 * (p - 1.0)
    ensures 0.8 * (2.0 * p - 1.0) <= Sum(delays + [delay]) <= 1.8 * (2.0 * p - 1.0)
  {
    SumAppend(delays, delay);
  }

  lemma Scaled(r: real, p: real, delay: real)
    requires 0.0 <= r < 1.0 && p >= 0.0 && delay == (0.8 + r) * p
    ensures 0.8 * p <= delay <= 1.8 * p
  {
    assert 0.0 <= r * p <= 1.0 * p;
  }

  /** The promise determines the trace, so the loop cannot stop early or late. */
  lemma SettlesOnce<T>(calls: nat -> Call<T>, retries: int, all: bool, a: Trace<T>, b: Trace<T>)
    requires Settles(calls, retries, all, a) && Settles(calls, retries, all, b)
    ensures a.calls == b.calls && a.outcome == b.outcome
  {
    if retries >= 0 {
      var lastA: nat, lastB: nat := a.calls - 1, b.calls - 1;
      assert Retried(calls(lastA), all) || lastA >= lastB;
      assert Retried(calls(lastB), all) || lastB >= lastA;
    }
  }

  /** So the first success within the allowed calls is returned, after exactly that many calls. */
  lemma FirstSuccessWins<T>(calls: nat -> Call<T>, retries: int, all: bool, t: Trace<T>, k: nat)
    requires Settles(calls, retries, all, t) && k <= retries
    requires FailedSoFar(calls, k, all) && calls(k).Returned?
    ensures t.outcome == Value(calls(k).value) && t.calls == k + 1
  {
    SettlesOnce(calls, retries, all, t, Trace(Value(calls(k).value), k + 1, seq(k, _ => 0.0)));
  }
}
