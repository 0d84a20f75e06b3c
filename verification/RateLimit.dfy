/** The request counter in Redis (backend/src/rate_limit_middleware.rs): one key, increment and expiry as
    one step. Times and windows are in one unit, say the milliseconds of the Redis clock. */
module RateLimit {
  import opened Basics

  /** The counter, and when its key goes; a count of zero is no key. */
  datatype Counter = Counter(count: nat, expires: int)

  const FRESH := Counter(0, 0)

  /** The key as Redis shows it at `now`. */
  function Live(c: Counter, now: int): Counter {
    if c.count > 0 && now >= c.expires then FRESH else c
  }

  /** The counter after a request at `now`. */
  function Hit(c: Counter, window: int, now: int): (r: Counter)
    ensures r.count >= 1
  {
    var live := Live(c, now);
    Counter(live.count + 1, if live.count == 0 then now + window else live.expires)
  }

  class Redis {
    var counter: Counter

    constructor ()
      ensures counter == FRESH
    {
      counter := FRESH;
    }

    /** `check_rate_limit`. */
    method CheckRateLimit(limit: int, window: int, now: int) returns (admitted: bool)
      modifies this
      ensures counter == Hit(old(counter), window, now) && (admitted <==> counter.count <= limit)
    {
      counter := Live(counter, now);
      counter := counter.(count := counter.count + 1);
      if counter.count == 1 {
        counter := counter.(expires := now + window);
      }
      admitted := counter.count <= limit;
    }
  }

  // ---------------------------------------------------------------- traces

  ghost predicate Ordered(times: seq<int>) {
    forall i, j :: 0 <= i <= j < |times| ==> times[i] <= times[j]
  }

  /** The counter after the first `n` requests. */
  function After(times: seq<int>, window: int, n: nat): Counter
    requires n <= |times|
  {
    if n == 0 then FRESH else Hit(After(times, window, n - 1), window, times[n - 1])
  }

  predicate Admitted(times: seq<int>, limit: int, window: int, i: nat)
    requires i < |times|
  {
    After(times, window, i + 1).count <= limit
  }

  function AdmittedIn(times: seq<int>, limit: int, window: int, a: nat, b: nat): nat
    requires a <= b <= |times|
  {
    if a == b then 0
    else AdmittedIn(times, limit, window, a, b - 1) + if Admitted(times, limit, window, b - 1) then 1 else 0
  }

  /** Request `i` starts a window of its own. */
  predicate Starts(times: seq<int>, window: int, i: nat)
    requires i < |times|
  {
    After(times, window, i + 1).count == 1
  }

  lemma {:induction false} CountsUp(times: seq<int>, window: int, a: nat, b: nat)
    requires a < b <= |times| && forall i: nat :: a < i < b ==> !Starts(times, window, i)
    ensures After(times, window, b).count == After(times, window, a + 1).count + (b - a - 1)
    ensures After(times, window, b).expires == After(times, window, a + 1).expires
    decreases b
  {
    if b > a + 1 {
      CountsUp(times, window, a, b - 1);
      assert !Starts(times, window, b - 1);
    }
  }

  /** Within one window, from the request that is its `first`-th on, at most `limit` + 1 - `first` are
      admitted; so at most `limit` in all. */
  lemma {:induction false} WindowLimit(times: seq<int>, limit: nat, window: int, a: nat, b: nat)
    requires a < b <= |times| && forall i: nat :: a < i < b ==> !Starts(times, window, i)
    ensures var first := After(times, window, a + 1).count;
      AdmittedIn(times, limit, window, a, b) == if first > limit then 0 else Min(b - a, limit + 1 - first)
    decreases b
  {
    CountsUp(times, window, a, b);
    if b > a + 1 {
      WindowLimit(times, limit, window, a, b - 1);
    } else {
      assert AdmittedIn(times, limit, window, a, a) == 0;
    }
  }

  lemma {:induction false} AdmittedSplit(times: seq<int>, limit: int, window: int, a: nat, m: nat, b: nat)
    requires a <= m <= b <= |times|
    ensures AdmittedIn(times, limit, window, a, b) == AdmittedIn(times, limit, window, a, m) + AdmittedIn(times, limit, window, m, b)
    decreases b
  {
    if m < b { AdmittedSplit(times, limit, window, a, m, b - 1); }
  }

  /** A window that starts at request `m` reaches past every request less than `window` after it. */
  lemma {:induction false} NoStartWithin(times: seq<int>, window: int, m: nat, b: nat)
    requires m < b <= |times| && Ordered(times) && Starts(times, window, m)
    requires times[b - 1] < times[m] + window
    ensures forall i: nat :: m < i < b ==> !Starts(times, window, i)
    ensures After(times, window, b).expires == times[m] + window
    decreases b
  {
    if b > m + 1 {
      assert times[b - 2] <= times[b - 1];
      NoStartWithin(times, window, m, b - 1);
    } else {
      StartExpires(times, window, m);
    }
  }

  lemma StartExpires(times: seq<int>, window: int, m: nat)
    requires m < |times| && Starts(times, window, m)
    ensures After(times, window, m + 1).expires == times[m] + window
  {}

  /** The first start of a window at or behind `a`, if there is one before `b`. */
  lemma {:induction false} FirstStart(times: seq<int>, window: int, a: nat, b: nat) returns (m: nat)
    requires a <= b <= |times|
    ensures a <= m <= b && (forall i: nat :: a <= i < m ==> !Starts(times, window, i))
    ensures m < b ==> Starts(times, window, m)
    decreases b - a
  {
    if a == b || Starts(times, window, a) {
      m := a;
    } else {
      m := FirstStart(times, window, a + 1, b);
    }
  }

  lemma {:induction false} NoneAdmitted(times: seq<int>, limit: int, window: int, a: nat, b: nat)
    requires a <= b <= |times| && limit <= 0
    ensures AdmittedIn(times, limit, window, a, b) == 0
    decreases b
  {
    if a < b {
      NoneAdmitted(times, limit, window, a, b - 1);
      CountPositive(times, window, b - 1);
    }
  }

  /** However the requests come, those within any time shorter than `window`, that is in any half-open
      interval of length `window`, are at most twice the limit less one. */
  lemma IntervalLimit(times: seq<int>, limit: int, window: int, a: nat, b: nat)
    requires a < b <= |times| && Ordered(times) && times[b - 1] - times[a] < window
    ensures AdmittedIn(times, limit, window, a, b) <= if limit <= 0 then 0 else 2 * limit - 1
  {
    hide After, AdmittedIn;
    if limit <= 0 {
      NoneAdmitted(times, limit, window, a, b);
      return;
    }
    var m := FirstStart(times, window, a, b);
    if m == b {
      WindowLimit(times, limit, window, a, b);
      CountPositive(times, window, a);
    } else {
      assert times[a] <= times[m];
      NoStartWithin(times, window, m, b);
      WindowLimit(times, limit, window, m, b);
      assert Starts(times, window, m);
      if a < m {
        assert !Starts(times, window, a);
        WindowLimit(times, limit, window, a, m);
        CountPositive(times, window, a);
        AdmittedSplit(times, limit, window, a, m, b);
      }
    }
  }

  /** A request that starts no window is not the first of its own. */
  lemma CountPositive(times: seq<int>, window: int, a: nat)
    requires a < |times|
    ensures After(times, window, a + 1).count >= 1
  {}

  // ---------------------------------------------------------------- no sliding window

  /** One request, the rest of its window's share just before the window ends, and all of the next
      one's share at its end. */
  function Burst(limit: nat, window: int): (times: seq<int>)
    requires limit >= 1
    ensures |times| == 2 * limit && times[0] == 0
    ensures forall i :: 1 <= i < limit ==> times[i] == window - 1
    ensures forall i :: limit <= i < 2 * limit ==> times[i] == window
  {
    [0] + seq(limit - 1, _ => window - 1) + seq(limit, _ => window)
  }

  /** The bound is met for every limit, by requests at two neighbouring instants. */
  lemma BurstAdmitted(limit: nat, window: int)
    requires limit >= 1 && window >= 2
    ensures var times := Burst(limit, window);
      && Ordered(times) && times[2 * limit - 1] - times[1] < window
      && AdmittedIn(times, limit, window, 1, 2 * limit) == 2 * limit - 1
  {
    hide AdmittedIn, Burst;
    var times := Burst(limit, window);
    assert After(times, window, 0) == FRESH;
    assert Starts(times, window, 0);
    NoStartWithin(times, window, 0, limit);
    CountsUp(times, window, 0, limit);
    if limit > 1 {
      CountsUp(times, window, 0, 2);
      WindowLimit(times, limit, window, 1, limit);
    } else {
      NothingAdmitted(times, limit, window, 1);
    }
    assert Starts(times, window, limit);
    NoStartWithin(times, window, limit, 2 * limit);
    WindowLimit(times, limit, window, limit, 2 * limit);
    AdmittedSplit(times, limit, window, 1, limit, 2 * limit);
  }

  lemma NothingAdmitted(times: seq<int>, limit: int, window: int, a: nat)
    requires a <= |times|
    ensures AdmittedIn(times, limit, window, a, a) == 0
  {}

  /** What a sliding window promises: never more than `limit` admitted within less than `window`. */
  ghost predicate Sliding(limit: int, window: int) {
    forall times: seq<int>, a: nat, b: nat ::
      a < b <= |times| && Ordered(times) && times[b - 1] - times[a] < window ==>
        AdmittedIn(times, limit, window, a, b) <= Max(limit, 0)
  }

  /** Requests at one instant fall into one window of length one. */
  lemma {:induction false} NoStartAtInstant(times: seq<int>, a: nat, b: nat)
    requires a < b <= |times| && Ordered(times) && times[b - 1] == times[a]
    ensures forall i: nat :: a < i < b ==> !Starts(times, 1, i)
    ensures After(times, 1, b).expires > times[b - 1]
    decreases b
  {
    if b > a + 1 {
      assert times[a] <= times[b - 2] <= times[b - 1];
      NoStartAtInstant(times, a, b - 1);
      CountPositive(times, 1, b - 2);
    }
  }

  /** The counter is a sliding window exactly for limits and windows of at most one. */
  lemma SlidingIff(limit: int, window: int)
    ensures Sliding(limit, window) <==> limit <= 1 || window <= 1
  {
    hide AdmittedIn, After;
    if limit <= 1 || window <= 1 {
      forall times: seq<int>, a: nat, b: nat | a < b <= |times| && Ordered(times) && times[b - 1] - times[a] < window
        ensures AdmittedIn(times, limit, window, a, b) <= Max(limit, 0)
      {
        IntervalLimit(times, limit, window, a, b);
        assert times[a] <= times[b - 1];
        if limit > 1 {
          NoStartAtInstant(times, a, b);
          WindowLimit(times, limit, window, a, b);
          CountPositive(times, window, a);
        }
      }
    } else {
      BurstAdmitted(limit, window);
      var times := Burst(limit, window);
      assert AdmittedIn(times, limit, window, 1, 2 * limit) > Max(limit, 0);
    }
  }
}
