/** The circuit breaker and the batch processing around it (python-deprecated/utils/network.py). */
module CircuitBreakers {
  import opened Basics
  import opened Wrappers

  datatype State = CLOSED | OPEN | HALF_OPEN

  datatype Config = Config(failureThreshold: int, recoveryTimeout: int, halfOpenAttempts: int)

  /** What the breaker remembers. */
  datatype Memory = Memory(state: State, failures: nat, successes: nat, lastFailure: Option<real>)

  const INITIAL := Memory(CLOSED, 0, 0, None)

  /** What reaches the breaker: a check or an outcome, in any order and from any number of tasks. */
  datatype Event = Check(now: real) | Failure(now: real) | Success

  /** Time enough since the failure; a failure at time zero counts as none. */
  predicate Recovered(last: Option<real>, c: Config, now: real) {
    last.Some? && last.value != 0.0 && now - last.value >= c.recoveryTimeout as real
  }

  predicate Admits(m: Memory, c: Config, now: real) {
    m.state != OPEN || Recovered(m.lastFailure, c, now)
  }

  function Step(m: Memory, c: Config, e: Event): Memory {
    match e
    case Check(now) =>
      if m.state == OPEN && Recovered(m.lastFailure, c, now)
      then m.(state := HALF_OPEN, failures := 0, successes := 0)
      else m
    case Failure(now) =>
      Memory(if m.failures + 1 >= c.failureThreshold then OPEN else m.state, m.failures + 1, 0, Some(now))
    case Success =>
      if m.state == HALF_OPEN then
        if m.successes + 1 >= c.halfOpenAttempts then INITIAL else m.(successes := m.successes + 1)
      else if m.state == CLOSED then m.(failures := 0, successes := 0)
      else m
  }

  class CircuitBreaker {
    const config: Config
    var state: State
    var failures: nat
    var successfulAttempts: nat
    var lastFailureTime: Option<real>

    ghost function Remembered(): Memory
      reads this
    {
      Memory(state, failures, successfulAttempts, lastFailureTime)
    }

    constructor (config: Config)
      ensures this.config == config && Remembered() == INITIAL
    {
      this.config := config;
      state, failures, successfulAttempts, lastFailureTime := CLOSED, 0, 0, None;
    }

    /** `is_closed`. */
    method IsClosed(now: real) returns (admitted: bool)
      modifies this
      ensures Remembered() == Step(old(Remembered()), config, Check(now))
      ensures admitted == Admits(old(Remembered()), config, now)
    {
      if state == CLOSED {
        return true;
      } else if state == HALF_OPEN {
        return true;
      } else if state == OPEN && lastFailureTime.Some? && lastFailureTime.value != 0.0
             && now - lastFailureTime.value >= config.recoveryTimeout as real {
        state := HALF_OPEN;
        failures := 0;
        successfulAttempts := 0;
        return true;
      }
      return false;
    }

    /** `reset`. */
    method Reset()
      modifies this
      ensures Remembered() == INITIAL
    {
      state := CLOSED;
      failures := 0;
      successfulAttempts := 0;
      lastFailureTime := None;
    }

    /** `record_failure`. */
    method RecordFailure(now: real)
      modifies this
      ensures Remembered() == Step(old(Remembered()), config, Failure(now))
    {
      failures := failures + 1;
      lastFailureTime := Some(now);
      successfulAttempts := 0;
      if failures >= config.failureThreshold {
        state := OPEN;
      }
    }

    /** `record_success`. */
    method RecordSuccess()
      modifies this
      ensures Remembered() == Step(old(Remembered()), config, Success)
    {
      if state == HALF_OPEN {
        successfulAttempts := successfulAttempts + 1;
        if successfulAttempts >= config.halfOpenAttempts {
          Reset();
        }
      } else if state == CLOSED {
        failures := 0;
        successfulAttempts := 0;
      }
    }
  }

  // ---------------------------------------------------------------- runs

  /** The breaker after the first `n` events. */
  function After(c: Config, trace: seq<Event>, n: nat): Memory
    requires n <= |trace|
  {
    if n == 0 then INITIAL else Step(After(c, trace, n - 1), c, trace[n - 1])
  }

  function Failures(trace: seq<Event>, k: nat, n: nat): nat
    requires k <= n <= |trace|
  {
    if k == n then 0 else Failures(trace, k, n - 1) + if trace[n - 1].Failure? then 1 else 0
  }

  function Successes(trace: seq<Event>, k: nat, n: nat): nat
    requires k <= n <= |trace|
  {
    if k == n then 0 else Successes(trace, k, n - 1) + if trace[n - 1].Success? then 1 else 0
  }

  /** Time of the latest failure among the first `n` events. */
  function LatestFailure(trace: seq<Event>, n: nat): Option<real>
    requires n <= |trace|
  {
    if n == 0 then None
    else if trace[n - 1].Failure? then Some(trace[n - 1].now)
    else LatestFailure(trace, n - 1)
  }

  /** The states never contradict the failure count. */
  lemma {:induction false} CountsMatchState(c: Config, trace: seq<Event>, n: nat)
    requires n <= |trace| && c.failureThreshold >= 1
    ensures After(c, trace, n).state == OPEN <==> After(c, trace, n).failures >= c.failureThreshold
  {
    if n > 0 { CountsMatchState(c, trace, n - 1); }
  }

  lemma {:induction false} RemembersFailure(c: Config, trace: seq<Event>, n: nat)
    requires n <= |trace|
    ensures var m := After(c, trace, n); m.state != CLOSED ==> m.lastFailure == LatestFailure(trace, n)
    ensures After(c, trace, n).lastFailure.Some? ==> After(c, trace, n).lastFailure == LatestFailure(trace, n)
    ensures After(c, trace, n).state != CLOSED ==> LatestFailure(trace, n).Some?
  {
    if n > 0 { RemembersFailure(c, trace, n - 1); }
  }

  /** A check is let through exactly if the breaker is not open or its latest failure, wherever it came
      from, is long enough ago. */
  lemma AdmittedIff(c: Config, trace: seq<Event>, n: nat, now: real)
    requires n <= |trace|
    ensures Admits(After(c, trace, n), c, now)
       <==> After(c, trace, n).state != OPEN || Recovered(LatestFailure(trace, n), c, now)
  {
    RemembersFailure(c, trace, n);
  }

  /** The window from `k` on in which the breaker has been testing. */
  lemma {:induction false} TestingSince(c: Config, trace: seq<Event>, n: nat) returns (k: nat)
    requires n <= |trace| && After(c, trace, n).state == HALF_OPEN
    ensures k <= n && (forall i :: k <= i <= n ==> After(c, trace, i).state == HALF_OPEN)
    ensures Failures(trace, k, n) == 0 && Successes(trace, k, n) == After(c, trace, n).successes
    decreases n
  {
    var before, e := After(c, trace, n - 1), trace[n - 1];
    if before.state == HALF_OPEN && !e.Failure? {
      k := TestingSince(c, trace, n - 1);
    } else {
      k := n;
    }
  }

  /** From HALF-OPEN to CLOSED only by as many successes in a row as are asked for, all of them
      recorded while testing. */
  lemma ClosesAfterSuccesses(c: Config, trace: seq<Event>, n: nat) returns (k: nat)
    requires n < |trace| && After(c, trace, n).state == HALF_OPEN && After(c, trace, n + 1).state == CLOSED
    ensures k <= n && (forall i :: k <= i <= n ==> After(c, trace, i).state == HALF_OPEN)
    ensures Failures(trace, k, n + 1) == 0 && trace[n].Success?
    ensures Successes(trace, k, n + 1) == Max(c.halfOpenAttempts, 1)
  {
    k := TestingSince(c, trace, n);
    StillTesting(c, trace, n);
  }

  /** While testing, there have been too few successes. */
  lemma {:induction false} StillTesting(c: Config, trace: seq<Event>, n: nat)
    requires n <= |trace| && After(c, trace, n).state == HALF_OPEN
    ensures After(c, trace, n).successes == 0 || After(c, trace, n).successes < c.halfOpenAttempts
    decreases n
  {
    if After(c, trace, n - 1).state == HALF_OPEN { StillTesting(c, trace, n - 1); }
  }

  /** And by that many it does. */
  lemma {:induction false} Recovers(c: Config, trace: seq<Event>, k: nat, n: nat)
    requires k <= n <= |trace| && After(c, trace, k).state == HALF_OPEN && Failures(trace, k, n) == 0
    ensures var needed := c.halfOpenAttempts - After(c, trace, k).successes;
      After(c, trace, n).state ==
        if Successes(trace, k, n) > 0 && Successes(trace, k, n) >= needed then CLOSED else HALF_OPEN
    ensures After(c, trace, n).state == HALF_OPEN ==>
      After(c, trace, n).successes == After(c, trace, k).successes + Successes(trace, k, n)
    decreases n
  {
    if n > k { Recovers(c, trace, k, n - 1); }
  }

  /** The window from `k` on whose failures the breaker has counted. */
  lemma {:induction false} CountingSince(c: Config, trace: seq<Event>, n: nat) returns (k: nat)
    requires n <= |trace| && After(c, trace, n).state != OPEN
    ensures k <= n && Failures(trace, k, n) == After(c, trace, n).failures
    ensures forall i :: k <= i <= n ==> After(c, trace, i).state == After(c, trace, n).state
    ensures forall i :: k <= i < n && trace[i].Success? ==> After(c, trace, i).state == HALF_OPEN
    decreases n
  {
    if n == 0 {
      k := 0;
    } else {
      var before, m := After(c, trace, n - 1), After(c, trace, n);
      if before.state != m.state || (before.state == CLOSED && trace[n - 1].Success?) {
        k := n;
      } else {
        k := CountingSince(c, trace, n - 1);
      }
    }
  }

  /** The breaker opens only on the last of `failureThreshold` failures, with no success recorded
      between them while it was closed. */
  lemma OpensAfterFailures(c: Config, trace: seq<Event>, n: nat) returns (k: nat)
    requires n < |trace| && c.failureThreshold >= 1
    requires After(c, trace, n).state != OPEN && After(c, trace, n + 1).state == OPEN
    ensures k <= n && trace[n].Failure? && Failures(trace, k, n + 1) == c.failureThreshold
    ensures forall i :: k <= i <= n ==> After(c, trace, i).state == After(c, trace, n).state
    ensures forall i :: k <= i <= n && trace[i].Success? ==> After(c, trace, i).state == HALF_OPEN
  {
    k := CountingSince(c, trace, n);
    CountsMatchState(c, trace, n);
  }

  /** Open, a breaker lets nothing through until the timeout after its latest failure has passed. */
  lemma {:induction false} OpenUntilRecovered(c: Config, trace: seq<Event>, k: nat, n: nat)
    requires k <= n <= |trace| && After(c, trace, k).state == OPEN
    requires forall i :: k <= i < n && trace[i].Check? ==> !Recovered(LatestFailure(trace, i), c, trace[i].now)
    ensures After(c, trace, n).state == OPEN
    ensures forall i :: k <= i < n && trace[i].Check? ==> !Admits(After(c, trace, i), c, trace[i].now)
    decreases n
  {
    if n > k {
      OpenUntilRecovered(c, trace, k, n - 1);
      RemembersFailure(c, trace, n - 1);
    }
  }

  /** Failures are forgotten only by a success, by opening, and by what follows an opening. */
  lemma {:induction false} RemembersCount(c: Config, trace: seq<Event>, k: nat, n: nat)
    requires k <= n <= |trace| && (forall i :: k <= i <= n ==> After(c, trace, i).state != OPEN)
    requires Successes(trace, k, n) == 0
    ensures After(c, trace, n).failures == After(c, trace, k).failures + Failures(trace, k, n)
    decreases n
  {
    if n > k { RemembersCount(c, trace, k, n - 1); }
  }

  /** It does open: by as many failures as the threshold with no success between them, whatever checks come in
      between, and no later. */
  lemma {:induction false} OpensWhenDue(c: Config, trace: seq<Event>, k: nat, n: nat) returns (i: nat)
    requires k <= n <= |trace| && c.failureThreshold >= 1
    requires After(c, trace, k).state != OPEN && Successes(trace, k, n) == 0
    requires Failures(trace, k, n) >= c.failureThreshold
    ensures k < i <= n && After(c, trace, i).state == OPEN && Failures(trace, k, i) <= c.failureThreshold
  {
    i := FirstDue(c, trace, k, n);
    if forall j :: k <= j <= i ==> After(c, trace, j).state != OPEN {
      SuccessesWithin(trace, k, i, n);
      RemembersCount(c, trace, k, i);
      CountsMatchState(c, trace, i);
      assert false;
    }
    var j :| k <= j <= i && After(c, trace, j).state == OPEN;
    FailuresGrow(trace, k, j, i);
    i := j;
  }

  /** Where the count of failures reaches the threshold. */
  lemma {:induction false} FirstDue(c: Config, trace: seq<Event>, k: nat, n: nat) returns (i: nat)
    requires k <= n <= |trace| && Failures(trace, k, n) >= c.failureThreshold >= 1
    ensures k <= i <= n && Failures(trace, k, i) == c.failureThreshold
    decreases n
  {
    if Failures(trace, k, n) == c.failureThreshold { return n; }
    i := FirstDue(c, trace, k, n - 1);
  }

  lemma {:induction false} SuccessesWithin(trace: seq<Event>, k: nat, i: nat, n: nat)
    requires k <= i <= n <= |trace|
    ensures Successes(trace, k, i) <= Successes(trace, k, n)
    decreases n
  {
    if i < n { SuccessesWithin(trace, k, i, n - 1); }
  }

  lemma {:induction false} FailuresGrow(trace: seq<Event>, k: nat, i: nat, n: nat)
    requires k <= i <= n <= |trace|
    ensures Failures(trace, k, i) <= Failures(trace, k, n)
    decreases n
  {
    if i < n { FailuresGrow(trace, k, i, n - 1); }
  }

  /** An open breaker that lets a check through is testing from then on: without a failure, the successes asked for
      close it, and fewer do not. */
  lemma {:induction false} ClosesAgain(c: Config, trace: seq<Event>, k: nat, n: nat)
    requires k < n <= |trace| && After(c, trace, k).state == OPEN && trace[k].Check?
    requires Admits(After(c, trace, k), c, trace[k].now) && Failures(trace, k + 1, n) == 0
    ensures After(c, trace, n).state ==
      if Successes(trace, k + 1, n) >= Max(c.halfOpenAttempts, 1) then CLOSED else HALF_OPEN
  {
    assert After(c, trace, k + 1) == After(c, trace, k).(state := HALF_OPEN, failures := 0, successes := 0);
    Recovers(c, trace, k + 1, n);
  }
}
