/** The blocking methods of `Client`: retry while rejected, up to a computed number of times. */
module Retry {
  import opened Bytes
  import opened Protocol
  import opened Application

  /** `calc_retry_count`. */
  function RetryLimit(timeoutSec: uint32, intervalUsec: uint32): uint32 {
    var intervalSec := intervalUsec / 1000000;
    if intervalSec != 0 then timeoutSec / intervalSec else 1
  }

  /** How a blocking call ends: a normal return, the "time out" SocketException, or the
      FailureException of an attempt. */
  datatype End = Returned | TimedOut | FailureThrown

  /** The number of rejections before the first attempt that is not rejected, at most `max`. */
  function Rejections(attempt: nat -> Outcome, max: nat): (n: nat)
    ensures n <= max
    ensures forall k :: 0 <= k < n ==> attempt(k).Rejected?
    ensures n < max ==> !attempt(n).Rejected?
  {
    if max == 0 then 0
    else
      var n := Rejections(attempt, max - 1);
      if n == max - 1 && attempt(n).Rejected? then max else n
  }

  /** What a blocking call comes to: its end, the attempts it has made and how long it has slept. */
  datatype Ending = Ending(end: End, attempts: nat, slept: nat)

  function EndingOf(attempt: nat -> Outcome, max: nat, intervalUsec: nat): Ending {
    var n := Rejections(attempt, max);
    if n == max then Ending(TimedOut, max, max * intervalUsec)
    else Ending(if attempt(n).Failure? then FailureThrown else Returned, n + 1, n * intervalUsec)
  }

  /** `attempt(k)` is the outcome of the k-th exchange; a swallowed SocketException is a
      normal return of the wrapper. `slept` adds up the arguments of `usleep`. */
  method BlockingCall(attempt: nat -> Outcome, intervalUsec: uint32, timeoutSec: uint32)
    returns (end: End, attempts: nat, slept: nat)
    ensures Ending(end, attempts, slept) == EndingOf(attempt, RetryLimit(timeoutSec, intervalUsec), intervalUsec)
  {
    var isSuccess := false;
    var retryCount: uint32 := 0;
    var maxRetryCount := RetryLimit(timeoutSec, intervalUsec);
    attempts, slept := 0, 0;
    while !isSuccess && maxRetryCount > retryCount
      invariant retryCount <= maxRetryCount
      invariant forall k :: 0 <= k < retryCount ==> attempt(k).Rejected?
      invariant attempts == if isSuccess then retryCount + 1 else retryCount
      invariant isSuccess ==>
        retryCount < maxRetryCount && (attempt(retryCount).Accepted? || attempt(retryCount).SocketError?)
      invariant slept == retryCount * intervalUsec
      decreases maxRetryCount - retryCount, !isSuccess
    {
      attempts := attempts + 1;
      match attempt(retryCount)
      case Rejected =>
        RejectionsUnique(attempt, maxRetryCount, retryCount);
        retryCount := (retryCount + 1) % U32;
        slept := slept + intervalUsec;
      case Failure =>
        RejectionsUnique(attempt, maxRetryCount, retryCount);
        return FailureThrown, attempts, slept;
      case _ =>
        isSuccess := true;
    }
    RejectionsUnique(attempt, maxRetryCount, retryCount);
    end := if maxRetryCount > retryCount then Returned else TimedOut;
  }

  lemma RejectionsUnique(attempt: nat -> Outcome, max: nat, n: nat)
    requires n <= max && (forall k :: 0 <= k < n ==> attempt(k).Rejected?)
    ensures n == max || !attempt(n).Rejected? ==> Rejections(attempt, max) == n
  {
  }

  /** Attempt `k` is the first that is not rejected. */
  ghost predicate FirstNotRejected(attempt: nat -> Outcome, max: nat, k: nat) {
    k < max && !attempt(k).Rejected? && forall l :: 0 <= l < k ==> attempt(l).Rejected?
  }

  /** The contract of a blocking call in terms of the outcomes alone: it ends with the first of the
      `max` attempts that is not rejected, returning or throwing as that one does, having slept
      once for each before it; if there is none, it times out after `max` attempts and as many
      sleeps. */
  lemma EndsAtFirstNotRejected(attempt: nat -> Outcome, max: nat, intervalUsec: nat)
    ensures var r := EndingOf(attempt, max, intervalUsec);
      && (r.end == TimedOut <==> forall k :: 0 <= k < max ==> attempt(k).Rejected?)
      && (r.end == TimedOut ==> r.attempts == max && r.slept == max * intervalUsec)
      && (r.end != TimedOut ==>
            && r.attempts > 0 && FirstNotRejected(attempt, max, r.attempts - 1)
            && r.slept == (r.attempts - 1) * intervalUsec
            && (r.end == FailureThrown <==> attempt(r.attempts - 1).Failure?))
  {
    var n := Rejections(attempt, max);
    assert n < max ==> !attempt(n).Rejected?;
  }

  /** So when no attempt fails, it returns if and only if one of the first `max` attempts is not
      rejected, having made one attempt more than the rejections before it. */
  lemma ReturnsIffNotAllRejected(attempt: nat -> Outcome, max: nat, intervalUsec: nat)
    requires forall k :: 0 <= k < max ==> !attempt(k).Failure?
    ensures var r := EndingOf(attempt, max, intervalUsec);
      && (r.end == Returned <==> exists k :: 0 <= k < max && !attempt(k).Rejected?)
      && (r.end == Returned ==> r.attempts > 0 && FirstNotRejected(attempt, max, r.attempts - 1))
      && (r.end != Returned ==> r.end == TimedOut && r.attempts == max)
  {
    EndsAtFirstNotRejected(attempt, max, intervalUsec);
  }

  /** The limit is the number of whole intervals, in seconds, that the timeout holds: one more
      would not fit. */
  lemma LimitIsQuotient(intervalUsec: uint32, timeoutSec: uint32)
    ensures var sec, max := intervalUsec / 1000000, RetryLimit(timeoutSec, intervalUsec);
      if sec > 0 then max * sec <= timeoutSec < (max + 1) * sec else max == 1
  {
  }

  /** A call that times out has slept for more than the timeout less one interval. */
  lemma SleepsLongEnough(attempt: nat -> Outcome, intervalUsec: uint32, timeoutSec: uint32)
    requires intervalUsec >= 1000000
    ensures var sec, r := intervalUsec / 1000000, EndingOf(attempt, RetryLimit(timeoutSec, intervalUsec), intervalUsec);
      r.end == TimedOut ==> r.slept > (timeoutSec - sec) * 1000000
  {
    var sec, max := intervalUsec / 1000000, RetryLimit(timeoutSec, intervalUsec);
    LimitIsQuotient(intervalUsec, timeoutSec);
    assert (max + 1) * sec == max * sec + sec;
    Monotone(sec * 1000000, intervalUsec, max);
    assert max * (sec * 1000000) == (max * sec) * 1000000;
  }

  /** For intervals of at least one second the whole call sleeps at most twice the timeout;
      for shorter ones it makes a single attempt, whatever the timeout. */
  lemma SleepBound(attempt: nat -> Outcome, intervalUsec: uint32, timeoutSec: uint32)
    ensures var max := RetryLimit(timeoutSec, intervalUsec);
      && (intervalUsec >= 1000000 ==> EndingOf(attempt, max, intervalUsec).slept <= 2 * timeoutSec * 1000000)
      && (intervalUsec < 1000000 ==> max == 1)
      && (max == 0 <==> timeoutSec < intervalUsec / 1000000)
  {
    var sec := intervalUsec / 1000000;
    if sec > 0 {
      var max := timeoutSec / sec;
      var n := Rejections(attempt, max);
      LimitTimesInterval(timeoutSec, sec, max);
      Monotone(n, max, intervalUsec);
      Monotone(intervalUsec, 2 * sec * 1000000, max);
      assert max * intervalUsec <= max * (2 * sec * 1000000) == 2 * (max * sec) * 1000000;
    }
  }

  lemma LimitTimesInterval(timeoutSec: nat, sec: nat, max: nat)
    requires sec > 0 && max == timeoutSec / sec
    ensures max * sec <= timeoutSec && (max == 0 <==> timeoutSec < sec)
  {
  }

  lemma Monotone(a: nat, b: nat, c: nat)
    requires a <= b
    ensures a * c <= b * c && c * a <= c * b
  {
  }

  // ---- a rejected call of an exclusive user ------------------------------------------

  /** The application when attempt `k` of a call is evaluated: before every attempt other
      connections are served, as `between` says. */
  function Before(app: App, d: Demand, between: nat -> seq<Demand>, k: nat): App {
    if k == 0 then AfterAll(app, between(0))
    else AfterAll(After(Before(app, d, between, k - 1), d), between(k))
  }

  /** The outcomes of the attempts of one call on connection `id`. */
  function Attempts(app: App, c: Call, id: int, between: nat -> seq<Demand>): nat -> Outcome {
    var d := Demand(id, c.code, c.body);
    (k: nat) => OutcomeOf(c, VerdictOn(Before(app, d, between, k), d))
  }

  /** No request in between is one of this connection. */
  ghost predicate Exclusive(id: int, between: nat -> seq<Demand>) {
    forall j: nat, i :: 0 <= i < |between(j)| ==> between(j)[i].id != id
  }

  lemma {:induction false} RejectedEveryTime(app: App, d: Demand, between: nat -> seq<Demand>, k: nat)
    requires Exclusive(d.id, between)
    requires !VerdictOn(Before(app, d, between, 0), d).accepted
    ensures !VerdictOn(Before(app, d, between, k), d).accepted
  {
    if k > 0 {
      RejectedEveryTime(app, d, between, k - 1);
      RejectedStaysRejected(Before(app, d, between, k - 1), d, between(k), d);
    }
  }

  /** A call of a connection's only user that is rejected once is rejected on every retry,
      whatever the other connections do meanwhile, and times out after exactly the computed
      number of attempts, having slept after each. */
  lemma RejectedOnceTimesOut(app: App, c: Call, id: int, between: nat -> seq<Demand>,
                             intervalUsec: uint32, timeoutSec: uint32)
    requires Exclusive(id, between) && Attempts(app, c, id, between)(0).Rejected?
    ensures var max := RetryLimit(timeoutSec, intervalUsec);
      var r := EndingOf(Attempts(app, c, id, between), max, intervalUsec);
      r.end == TimedOut && r.attempts == max && r.slept == max * intervalUsec
  {
    var attempt, max := Attempts(app, c, id, between), RetryLimit(timeoutSec, intervalUsec);
    forall k | 0 <= k < max ensures attempt(k).Rejected? {
      RejectedEveryTime(app, Demand(id, c.code, c.body), between, k);
    }
    RejectionsUnique(attempt, max, max);
  }
}
