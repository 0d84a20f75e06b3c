/** `batch_process_with_circuit_breaker` (python-deprecated/utils/network.py). */
module BatchProcessing {

  /** How one attempt ended: a result, an error to be tried again (an open breaker among them), or
      another error. */
  datatype Outcome<R> = Result(value: R) | Retryable | Fatal

  datatype Completion<T, R> = Completion(item: T, outcome: Outcome<R>)

  function Items<T, R>(done: seq<Completion<T, R>>): (r: seq<T>)
    ensures |r| == |done| && forall i :: 0 <= i < |done| ==> r[i] == done[i].item
  {
    if done == [] then [] else Items(done[..|done| - 1]) + [done[|done| - 1].item]
  }

  lemma ItemsSnoc<T, R>(done: seq<Completion<T, R>>, c: Completion<T, R>)
    ensures Items(done + [c]) == Items(done) + [c.item]
  {
    assert (done + [c])[..|done|] == done;
  }

  /** All attempts of a round complete, in some order. */
  ghost predicate Completes<T(!new), R>(complete: (nat, seq<T>) -> seq<Completion<T, R>>) {
    forall round: nat, batch: seq<T> :: multiset(Items(complete(round, batch))) == multiset(batch)
  }

  /** Fate of the items handed over: `results` were yielded, `dropped` failed for good, `abandoned` ran
      out of retries; `attempts` lists every item handed to the breaker, let through or not. */
  datatype Report<T, R> = Report(results: seq<Completion<T, R>>, dropped: seq<T>, abandoned: seq<T>, attempts: seq<T>)

  function Nothing<T, R>(): Report<T, R> { Report([], [], [], []) }

  function Join<T, R>(a: Report<T, R>, b: Report<T, R>): Report<T, R> {
    Report(a.results + b.results, a.dropped + b.dropped, a.abandoned + b.abandoned, a.attempts + b.attempts)
  }

  /** Every item ends exactly once. */
  ghost predicate Accounts<T, R>(r: Report<T, R>, items: multiset<T>) {
    multiset(Items(r.results)) + multiset(r.dropped) + multiset(r.abandoned) == items
  }

  ghost predicate Results<T, R>(r: Report<T, R>) {
    forall c :: c in r.results ==> c.outcome.Result?
  }

  function Times(n: nat, a: nat): nat { n * a }

  /** At most `most` attempts for each time an item occurs; at least that many before it is abandoned,
      and at least one before it ends otherwise. */
  ghost predicate Attempted<T(!new), R>(r: Report<T, R>, items: multiset<T>, most: nat) {
    Bounded(multiset(r.attempts), multiset(r.abandoned), multiset(Items(r.results)) + multiset(r.dropped), items, most)
  }

  ghost predicate Bounded<T(!new)>(attempts: multiset<T>, given: multiset<T>, ended: multiset<T>, items: multiset<T>, most: nat) {
    forall x: T ::
      attempts[x] <= Times(most, items[x]) && attempts[x] >= Times(most, given[x]) + ended[x]
  }

  function Most(maxRetries: int): (n: nat)
    ensures n == (if maxRetries < 0 then 0 else maxRetries) + 1
  {
    if maxRetries < 0 then 1 else maxRetries + 1
  }

  // ---------------------------------------------------------------- one round

  function Yielded<T, R>(done: seq<Completion<T, R>>): seq<Completion<T, R>> {
    if done == [] then []
    else Yielded(done[..|done| - 1]) + if done[|done| - 1].outcome.Result? then [done[|done| - 1]] else []
  }

  function Dropped<T, R>(done: seq<Completion<T, R>>): seq<T> {
    if done == [] then []
    else Dropped(done[..|done| - 1]) + if done[|done| - 1].outcome.Fatal? then [done[|done| - 1].item] else []
  }

  function ToRetry<T, R>(done: seq<Completion<T, R>>): seq<T> {
    if done == [] then []
    else ToRetry(done[..|done| - 1]) + if done[|done| - 1].outcome.Retryable? then [done[|done| - 1].item] else []
  }

  /** One pass over the completions, as they come: what is yielded, what is dropped, and what is tried again. */
  method Collect<T, R>(done: seq<Completion<T, R>>) returns (results: seq<Completion<T, R>>, dropped: seq<T>, retry: seq<T>)
    ensures results == Yielded(done) && dropped == Dropped(done) && retry == ToRetry(done)
  {
    results, dropped, retry := [], [], [];
    for i := 0 to |done|
      invariant results == Yielded(done[..i]) && dropped == Dropped(done[..i]) && retry == ToRetry(done[..i])
    {
      var c := done[i];
      assert done[..i + 1][..i] == done[..i];
      match c.outcome
      case Result(_) => results := results + [c];
      case Retryable => retry := retry + [c.item];
      case Fatal => dropped := dropped + [c.item];
    }
    assert done[..|done|] == done;
  }

  lemma AddOne<T>(s: seq<T>, t: seq<T>, u: seq<T>, v: seq<T>, x: T)
    requires multiset(s) + multiset(t) + multiset(u) == multiset(v)
    ensures multiset(s + [x]) + multiset(t) + multiset(u) == multiset(v + [x])
    ensures multiset(s) + multiset(t + [x]) + multiset(u) == multiset(v + [x])
    ensures multiset(s) + multiset(t) + multiset(u + [x]) == multiset(v + [x])
  {}

  lemma Unfold<T, R>(before: seq<Completion<T, R>>, c: Completion<T, R>)
    ensures var done := before + [c];
      && Yielded(done) == (if c.outcome.Result? then Yielded(before) + [c] else Yielded(before))
      && Dropped(done) == (if c.outcome.Fatal? then Dropped(before) + [c.item] else Dropped(before))
      && ToRetry(done) == (if c.outcome.Retryable? then ToRetry(before) + [c.item] else ToRetry(before))
  {
    assert (before + [c])[..|before|] == before;
  }

  /** Every completion goes one of the three ways. */
  lemma {:induction false} ThreeWays<T, R>(done: seq<Completion<T, R>>)
    ensures multiset(Items(Yielded(done))) + multiset(Dropped(done)) + multiset(ToRetry(done)) == multiset(Items(done))
    ensures forall c :: c in Yielded(done) ==> c.outcome.Result?
    decreases |done|
  {
    if done != [] {
      hide *;
      var (before, c) := (done[..|done| - 1], done[|done| - 1]);
      assert before + [c] == done;
      ThreeWays(before);
      Unfold(before, c);
      ItemsSnoc(before, c);
      ItemsSnoc(Yielded(before), c);
      AddOne(Items(Yielded(before)), Dropped(before), ToRetry(before), Items(before), c.item);
    }
  }

  lemma ItemsJoin<T, R>(a: seq<Completion<T, R>>, b: seq<Completion<T, R>>)
    ensures Items(a + b) == Items(a) + Items(b)
  {
    hide Items;
  }

  /** After `round` rounds: the batch in hand has been tried that often, all of it. */
  ghost predicate Trying<T(!new), R>(r: Report<T, R>, batch: seq<T>, items: multiset<T>, round: nat) {
    && r.abandoned == []
    && multiset(Items(r.results)) + multiset(r.dropped) + multiset(batch) == items
    && Bounded(multiset(r.attempts), multiset(batch), multiset(Items(r.results)) + multiset(r.dropped), items, round)
  }

  lemma Sum<T>(a: seq<T>, b: seq<T>)
    ensures multiset(a + b) == multiset(a) + multiset(b)
  {}

  /** One more round leaves only what is to be tried again. */
  lemma TriedAgain<T(!new), R>(r: Report<T, R>, batch: seq<T>, items: multiset<T>, round: nat, done: seq<Completion<T, R>>)
    requires Trying(r, batch, items, round) && multiset(Items(done)) == multiset(batch)
    ensures Trying(AfterRound(r, batch, done), ToRetry(done), items, round + 1)
  {
    hide Yielded, Dropped, ToRetry, Items, Times;
    var results, dropped, retry := Yielded(done), Dropped(done), ToRetry(done);
    ThreeWays(done);
    ItemsJoin(r.results, results);
    Sum(r.attempts, batch);
    Sum(Items(r.results), Items(results));
    Sum(r.dropped, dropped);
    var (i, d, i', d') := (multiset(Items(r.results)), multiset(r.dropped), multiset(Items(results)), multiset(dropped));
    assert i + d + (i' + d') == (i + i') + (d + d');
    BoundedMore(multiset(r.attempts), multiset(batch), i + d, items, i' + d', multiset(retry), round);
  }

  lemma BoundedMore<T(!new)>(attempts: multiset<T>, batch: multiset<T>, ended: multiset<T>, items: multiset<T>,
                             ending: multiset<T>, retry: multiset<T>, round: nat)
    requires Bounded(attempts, batch, ended, items, round) && batch == ending + retry && ended + batch == items
    ensures Bounded(attempts + batch, retry, ended + ending, items, round + 1)
  {
    hide Times;
    forall x: T ensures
      && (attempts + batch)[x] <= Times(round + 1, items[x])
      && (attempts + batch)[x] >= Times(round + 1, retry[x]) + (ended + ending)[x]
    {
      Products(round, retry[x], batch[x], items[x]);
    }
  }

  function AfterRound<T, R>(r: Report<T, R>, batch: seq<T>, done: seq<Completion<T, R>>): Report<T, R> {
    Report(r.results + Yielded(done), r.dropped + Dropped(done), r.abandoned, r.attempts + batch)
  }

  lemma Products(round: nat, again: nat, left: nat, whole: nat)
    requires again <= left <= whole
    ensures Times(round, whole) + left <= Times(round + 1, whole)
    ensures Times(round, left) + left >= Times(round + 1, again) + (left - again)
  {
    TimesMonotone(round, again, left);
  }

  lemma {:induction false} TimesMonotone(n: nat, a: nat, b: nat)
    requires a <= b
    ensures Times(n, a) <= Times(n, b)
  {
    if n > 0 { TimesMonotone(n - 1, a, b); }
  }

  lemma TimesZero(n: nat, a: nat)
    ensures Times(n, 0) == 0 && Times(0, a) == 0
  {}

  lemma MoreTimes(n: nat, n': nat, a: nat)
    requires n <= n'
    ensures Times(n, a) <= Times(n', a)
  {
    TimesMonotone(a, n, n');
  }

  // ---------------------------------------------------------------- what the attempts returned

  /** The ways a completion can go. */
  datatype Way = Yield | Drop | Retry

  predicate Goes<T, R>(c: Completion<T, R>, way: Way) {
    match way
    case Yield => c.outcome.Result?
    case Drop => c.outcome.Fatal?
    case Retry => c.outcome.Retryable?
  }

  /** `r` is all of `done` that goes that way, in order. */
  ghost predicate Picks<T(!new), R(!new)>(done: seq<Completion<T, R>>, way: Way, r: seq<Completion<T, R>>) {
    exists at: seq<int> :: PicksAt(done, way, r, at)
  }

  ghost predicate PicksAt<T(!new), R(!new)>(done: seq<Completion<T, R>>, way: Way, r: seq<Completion<T, R>>, at: seq<int>) {
    Placed(done, way, r, at) && Rising(at) && AllPlaced(done, way, at)
  }

  ghost predicate Placed<T(!new), R(!new)>(done: seq<Completion<T, R>>, way: Way, r: seq<Completion<T, R>>, at: seq<int>) {
    && |at| == |r|
    && (forall i :: 0 <= i < |at| ==> 0 <= at[i] < |done| && r[i] == done[at[i]] && Goes(r[i], way))
  }

  ghost predicate Rising(at: seq<int>) {
    forall i, j :: 0 <= i < j < |at| ==> at[i] < at[j]
  }

  ghost predicate AllPlaced<T(!new), R(!new)>(done: seq<Completion<T, R>>, way: Way, at: seq<int>) {
    forall k :: 0 <= k < |done| && Goes(done[k], way) ==> k in at
  }

  lemma PicksNone<T(!new), R(!new)>(way: Way)
    ensures Picks<T, R>([], way, [])
  {
    assert PicksAt<T, R>([], way, [], []);
  }

  lemma PicksMore<T(!new), R(!new)>(done: seq<Completion<T, R>>, way: Way, r: seq<Completion<T, R>>, c: Completion<T, R>)
    requires Picks(done, way, r)
    ensures Picks(done + [c], way, if Goes(c, way) then r + [c] else r)
  {
    hide Goes;
    var at :| PicksAt(done, way, r, at);
    var more := done + [c];
    if Goes(c, way) {
      var at' := at + [|done|];
      forall k | 0 <= k < |more| && Goes(more[k], way) ensures k in at' {
        if k == |done| { assert at'[|at|] == k; } else { assert more[k] == done[k] && k in at; }
      }
      assert PicksAt(more, way, r + [c], at');
    } else {
      assert PicksAt(more, way, r, at);
    }
  }

  lemma PicksJoin<T(!new), R(!new)>(a: seq<Completion<T, R>>, r: seq<Completion<T, R>>,
                                                       b: seq<Completion<T, R>>, t: seq<Completion<T, R>>, way: Way)
    requires Picks(a, way, r) && Picks(b, way, t)
    ensures Picks(a + b, way, r + t)
  {
    hide PicksAt, Moved;
    var at :| PicksAt(a, way, r, at);
    var bt :| PicksAt(b, way, t, bt);
    JoinedAt(a, r, b, t, way, at, bt);
    assert PicksAt(a + b, way, r + t, at + Moved(bt, |a|));
  }

  function Moved(at: seq<int>, n: int): (r: seq<int>)
    ensures |r| == |at| && forall i :: 0 <= i < |at| ==> r[i] == at[i] + n
  {
    if at == [] then [] else [at[0] + n] + Moved(at[1..], n)
  }

  lemma JoinedAt<T(!new), R(!new)>(a: seq<Completion<T, R>>, r: seq<Completion<T, R>>,
                                   b: seq<Completion<T, R>>, t: seq<Completion<T, R>>, way: Way, at: seq<int>, bt: seq<int>)
    requires PicksAt(a, way, r, at) && PicksAt(b, way, t, bt)
    ensures PicksAt(a + b, way, r + t, at + Moved(bt, |a|))
  {
    hide AllPlaced, Moved;
    JoinedAll(a, b, way, at, bt);
    JoinedRising(at, bt, |a|);
    JoinedSome(a, r, b, t, way, at, bt);
  }

  lemma JoinedSome<T(!new), R(!new)>(a: seq<Completion<T, R>>, r: seq<Completion<T, R>>,
                                     b: seq<Completion<T, R>>, t: seq<Completion<T, R>>, way: Way, at: seq<int>, bt: seq<int>)
    requires Placed(a, way, r, at) && Placed(b, way, t, bt)
    ensures Placed(a + b, way, r + t, at + Moved(bt, |a|))
  {
    hide Goes, Moved;
    var (whole, all) := (r + t, at + Moved(bt, |a|));
    forall i | 0 <= i < |all| ensures 0 <= all[i] < |a + b| && whole[i] == (a + b)[all[i]] && Goes(whole[i], way) {
      JoinedPlace(a, r, b, t, way, at, bt, i);
    }
  }

  lemma JoinedPlace<T(!new), R(!new)>(a: seq<Completion<T, R>>, r: seq<Completion<T, R>>, b: seq<Completion<T, R>>,
                                      t: seq<Completion<T, R>>, way: Way, at: seq<int>, bt: seq<int>, i: nat)
    requires Placed(a, way, r, at) && Placed(b, way, t, bt) && i < |at| + |bt|
    ensures var (whole, all) := (r + t, at + Moved(bt, |a|));
      0 <= all[i] < |a + b| && whole[i] == (a + b)[all[i]] && Goes(whole[i], way)
  {
    LengthsPlaced(a, way, r, at);
    LengthsPlaced(b, way, t, bt);
    hide Goes, Moved, Placed;
    if i < |at| { FirstPart(a, b, way, r, at, i); } else { FirstPart(b, a, way, t, bt, i - |at|); }
  }

  lemma LengthsPlaced<T(!new), R(!new)>(a: seq<Completion<T, R>>, way: Way, r: seq<Completion<T, R>>, at: seq<int>)
    requires Placed(a, way, r, at)
    ensures |r| == |at|
  {}

  lemma FirstPart<T(!new), R(!new)>(a: seq<Completion<T, R>>, b: seq<Completion<T, R>>, way: Way,
                                    r: seq<Completion<T, R>>, at: seq<int>, i: nat)
    requires Placed(a, way, r, at) && i < |at|
    ensures 0 <= at[i] < |a| && (a + b)[at[i]] == r[i] == (b + a)[at[i] + |b|] && Goes(r[i], way)
  {
    hide Goes;
  }

  lemma JoinedRising(at: seq<int>, bt: seq<int>, n: nat)
    requires Rising(at) && Rising(bt) && (forall i :: 0 <= i < |at| ==> at[i] < n)
    requires forall i :: 0 <= i < |bt| ==> 0 <= bt[i]
    ensures Rising(at + Moved(bt, n))
  {
    hide Moved;
    var moved := Moved(bt, n);
    var all := at + moved;
    forall i, j | 0 <= i < j < |all| ensures all[i] < all[j] {
      if j < |at| {
        assert at[i] < at[j];
      } else if i < |at| {
        assert all[j] == moved[j - |at|] == bt[j - |at|] + n;
      } else {
        assert bt[i - |at|] < bt[j - |at|];
        assert all[i] == moved[i - |at|] && all[j] == moved[j - |at|];
      }
    }
  }

  lemma JoinedAll<T(!new), R(!new)>(a: seq<Completion<T, R>>, b: seq<Completion<T, R>>, way: Way, at: seq<int>, bt: seq<int>)
    requires AllPlaced(a, way, at) && AllPlaced(b, way, bt)
    ensures AllPlaced(a + b, way, at + Moved(bt, |a|))
  {
    hide Goes, Moved;
    var moved := Moved(bt, |a|);
    forall k | 0 <= k < |a + b| && Goes((a + b)[k], way) ensures k in at + moved {
      if k < |a| {
        assert (a + b)[k] == a[k] && k in at;
      } else {
        assert (a + b)[k] == b[k - |a|];
        var i :| 0 <= i < |bt| && bt[i] == k - |a|;
        assert moved[i] == k;
      }
    }
  }

  /** `items` are those of the completions that go that way, in order. */
  ghost predicate PicksItems<T(!new), R(!new)>(done: seq<Completion<T, R>>, way: Way, items: seq<T>) {
    exists picked :: Picks(done, way, picked) && items == Items(picked)
  }

  lemma PicksItemsMore<T(!new), R(!new)>(done: seq<Completion<T, R>>, way: Way, items: seq<T>, c: Completion<T, R>)
    requires PicksItems(done, way, items)
    ensures PicksItems(done + [c], way, if Goes(c, way) then items + [c.item] else items)
  {
    hide Picks, Items, Goes;
    var picked :| Picks(done, way, picked) && items == Items(picked);
    PicksMore(done, way, picked, c);
    ItemsSnoc(picked, c);
  }

  /** The three ways of a completion. */
  lemma {:induction false} CollectPicks<T(!new), R(!new)>(done: seq<Completion<T, R>>)
    ensures Picks(done, Yield, Yielded(done))
    ensures PicksItems(done, Drop, Dropped(done))
    ensures PicksItems(done, Retry, ToRetry(done))
    decreases |done|
  {
    if done == [] {
      hide Picks, PicksItems;
      NothingPicked<T, R>();
    } else {
      hide Picks, PicksItems, Yielded, Dropped, ToRetry;
      var (before, c) := (done[..|done| - 1], done[|done| - 1]);
      assert before + [c] == done;
      CollectPicks(before);
      Unfold(before, c);
      PicksMore(before, Yield, Yielded(before), c);
      PicksItemsMore(before, Drop, Dropped(before), c);
      PicksItemsMore(before, Retry, ToRetry(before), c);
    }
  }

  lemma NothingPicked<T(!new), R(!new)>()
    ensures Picks<T, R>([], Yield, []) && PicksItems<T, R>([], Drop, []) && PicksItems<T, R>([], Retry, [])
  {
    hide Picks;
    PicksNone<T, R>(Yield);
    PicksNone<T, R>(Drop);
    PicksNone<T, R>(Retry);
    assert Items<T, R>([]) == [];
  }

  /** One round of a batch: what was tried, and how that ended. */
  datatype Round<T, R> = Round(batch: seq<T>, done: seq<Completion<T, R>>)

  function Done<T, R>(h: seq<Round<T, R>>): seq<Completion<T, R>> {
    if h == [] then [] else Done(h[..|h| - 1]) + h[|h| - 1].done
  }

  function Tried<T, R>(h: seq<Round<T, R>>): seq<T> {
    if h == [] then [] else Tried(h[..|h| - 1]) + h[|h| - 1].batch
  }

  /** The rounds so far: the first is of the whole batch, each later one of what asked to be tried again in the
      one before; `next` asked for it in the last. */
  ghost predicate Follows<T(!new), R(!new)>(h: seq<Round<T, R>>, batch0: seq<T>, first: nat,
                                            complete: (nat, seq<T>) -> seq<Completion<T, R>>, next: seq<T>) {
    && (forall j: nat :: j < |h| ==> h[j].batch != [] && h[j].done == complete(first + j, h[j].batch))
    && (if h == [] then next == batch0 else h[0].batch == batch0 && PicksItems(h[|h| - 1].done, Retry, next))
    && (forall j: nat :: 0 < j < |h| ==> PicksItems(h[j - 1].done, Retry, h[j].batch))
  }

  /** All rounds of a batch: they end when nothing asks to be tried again, and not before unless the retries
      are used up; what asks then is abandoned. */
  ghost predicate Ran<T(!new), R(!new)>(h: seq<Round<T, R>>, batch0: seq<T>, first: nat, maxRetries: int,
                                        complete: (nat, seq<T>) -> seq<Completion<T, R>>, abandoned: seq<T>) {
    && Follows(h, batch0, first, complete, abandoned)
    && |h| <= Most(maxRetries) && (abandoned != [] ==> |h| == Most(maxRetries))
  }

  /** The report is of these completions: their results are yielded and their failures dropped. */
  ghost predicate Reports<T(!new), R(!new)>(r: Report<T, R>, done: seq<Completion<T, R>>) {
    Picks(done, Yield, r.results) && PicksItems(done, Drop, r.dropped)
  }

  lemma ReportsNothing<T(!new), R(!new)>()
    ensures Reports<T, R>(Nothing(), [])
  {
    hide Picks, PicksItems;
    NothingPicked<T, R>();
  }

  lemma ReportsMore<T(!new), R(!new)>(r: Report<T, R>, done: seq<Completion<T, R>>, r': Report<T, R>, done': seq<Completion<T, R>>)
    requires Reports(r, done) && Reports(r', done')
    ensures Reports(Join(r, r'), done + done')
  {
    hide Picks, Items;
    PicksJoin(done, r.results, done', r'.results, Yield);
    var a :| Picks(done, Drop, a) && r.dropped == Items(a);
    var b :| Picks(done', Drop, b) && r'.dropped == Items(b);
    PicksJoin(done, a, done', b, Drop);
    ItemsJoin(a, b);
  }

  /** One more round. */
  lemma FollowsMore<T(!new), R(!new)>(h: seq<Round<T, R>>, batch0: seq<T>, first: nat,
                                      complete: (nat, seq<T>) -> seq<Completion<T, R>>, batch: seq<T>)
    requires Follows(h, batch0, first, complete, batch) && batch != []
    ensures var done := complete(first + |h|, batch);
      Follows(h + [Round(batch, done)], batch0, first, complete, ToRetry(done))
  {
    hide PicksItems;
    CollectPicks(complete(first + |h|, batch));
  }

  lemma DoneMore<T, R>(h: seq<Round<T, R>>, x: Round<T, R>)
    ensures Done(h + [x]) == Done(h) + x.done && Tried(h + [x]) == Tried(h) + x.batch
  {
    assert (h + [x])[..|h|] == h;
  }

  /** The `while` loop over one batch; `first` is the number of rounds before. */
  method ProcessBatch<T(!new), R(!new)>(batch0: seq<T>, maxRetries: int, first: nat,
                                        complete: (nat, seq<T>) -> seq<Completion<T, R>>)
    returns (r: Report<T, R>, rounds: nat, ghost h: seq<Round<T, R>>)
    requires Completes(complete)
    ensures Accounts(r, multiset(batch0)) && Results(r) && Attempted(r, multiset(batch0), Most(maxRetries))
    ensures Ran(h, batch0, first, maxRetries, complete, r.abandoned) && rounds == first + |h|
    ensures Reports(r, Done(h)) && r.attempts == Tried(h)
  {
    hide Trying, Accounts, Attempted, Items, Yielded, Dropped, ToRetry, Follows, Reports, Done, Tried;
    ghost var items := multiset(batch0);
    var batch, batchRetries: nat := batch0, 0;
    r := Nothing();
    rounds, h := first, [];
    TryingNothing<T, R>(batch0);
    NothingDone(batch0, first, complete);
    while batch != []
      invariant Trying(r, batch, items, batchRetries) && Results(r) && r.abandoned == []
      invariant batchRetries == 0 || batchRetries <= maxRetries
      invariant Follows(h, batch0, first, complete, batch) && |h| == batchRetries && rounds == first + |h|
      invariant Reports(r, Done(h)) && r.attempts == Tried(h)
      decreases maxRetries - batchRetries
    {
      var done := complete(rounds, batch);
      var results, dropped, retry := Collect(done);
      TriedAgain(r, batch, items, batchRetries, done);
      ThreeWays(done);
      FollowsMore(h, batch0, first, complete, batch);
      ReportsRound(r, batch, h, done);
      r := Report(r.results + results, r.dropped + dropped, r.abandoned, r.attempts + batch);
      h := h + [Round(batch, done)];
      rounds := rounds + 1;
      if retry != [] {
        if batchRetries >= maxRetries {
          Abandoning(r, retry, items, batchRetries, maxRetries);
          Abandons(r, Done(h), retry);
          r := r.(abandoned := retry);
          return;
        }
        batchRetries := batchRetries + 1;
        batch := retry;
      } else {
        Finished(r, items, batchRetries + 1, maxRetries);
        return;
      }
    }
    Finished(r, items, batchRetries, maxRetries);
  }

  lemma NothingDone<T(!new), R(!new)>(batch0: seq<T>, first: nat, complete: (nat, seq<T>) -> seq<Completion<T, R>>)
    ensures Follows([], batch0, first, complete, batch0)
    ensures Reports<T, R>(Nothing(), Done<T, R>([])) && Tried<T, R>([]) == []
  {
    hide Reports;
    ReportsNothing<T, R>();
  }

  lemma ReportsRound<T(!new), R(!new)>(r: Report<T, R>, batch: seq<T>, h: seq<Round<T, R>>, done: seq<Completion<T, R>>)
    requires Reports(r, Done(h)) && r.attempts == Tried(h)
    ensures var h' := h + [Round(batch, done)]; var r' := AfterRound(r, batch, done);
      Reports(r', Done(h')) && r'.attempts == Tried(h')
  {
    hide Done, Tried, Picks, PicksItems, Yielded, Dropped, ToRetry;
    DoneMore(h, Round(batch, done));
    CollectPicks(done);
    var now: Report<T, R> := Report(Yielded(done), Dropped(done), [], batch);
    ReportsMore(r, Done(h), now, done);
  }

  lemma Abandons<T(!new), R(!new)>(r: Report<T, R>, done: seq<Completion<T, R>>, retry: seq<T>)
    requires Reports(r, done)
    ensures Reports(r.(abandoned := retry), done)
  {}

  lemma TryingNothing<T(!new), R>(batch: seq<T>)
    ensures Trying<T, R>(Nothing(), batch, multiset(batch), 0)
  {
    assert Items<T, R>([]) == [];
    forall x: T ensures Times(0, multiset(batch)[x]) == 0 {
      TimesZero(0, multiset(batch)[x]);
    }
  }

  lemma Abandoning<T(!new), R>(r: Report<T, R>, retry: seq<T>, items: multiset<T>, retries: nat, maxRetries: int)
    requires Trying(r, retry, items, retries + 1) && retries >= maxRetries && (retries == 0 || retries <= maxRetries)
    ensures var s := r.(abandoned := retry);
      Accounts(s, items) && Attempted(s, items, Most(maxRetries))
  {
    hide Times, Items;
    assert retries + 1 == Most(maxRetries);
  }

  lemma Finished<T(!new), R>(r: Report<T, R>, items: multiset<T>, round: nat, maxRetries: int)
    requires Trying(r, [], items, round) && round <= Most(maxRetries)
    ensures Accounts(r, items) && Attempted(r, items, Most(maxRetries))
  {
    hide Times, Items;
    forall x: T ensures
      && Times(round, items[x]) <= Times(Most(maxRetries), items[x])
      && Times(Most(maxRetries), multiset(r.abandoned)[x]) == 0
    {
      MoreTimes(round, Most(maxRetries), items[x]);
      TimesZero(Most(maxRetries), 0);
    }
  }

  // ---------------------------------------------------------------- the whole run

  lemma BoundedSum<T(!new)>(a: multiset<T>, g: multiset<T>, e: multiset<T>, i: multiset<T>,
                            a': multiset<T>, g': multiset<T>, e': multiset<T>, i': multiset<T>, most: nat)
    requires Bounded(a, g, e, i, most) && Bounded(a', g', e', i', most)
    ensures Bounded(a + a', g + g', e + e', i + i', most)
  {
    hide Times;
    forall x: T ensures
      (a + a')[x] <= Times(most, (i + i')[x]) && (a + a')[x] >= Times(most, (g + g')[x]) + (e + e')[x]
    {
      Spread(most, i[x], i'[x]);
      Spread(most, g[x], g'[x]);
    }
  }

  lemma Joined<T(!new), R>(a: Report<T, R>, b: Report<T, R>, some: multiset<T>, more: multiset<T>, most: nat)
    requires Accounts(a, some) && Attempted(a, some, most) && Results(a)
    requires Accounts(b, more) && Attempted(b, more, most) && Results(b)
    ensures Accounts(Join(a, b), some + more) && Attempted(Join(a, b), some + more, most) && Results(Join(a, b))
  {
    hide Items, Bounded;
    ItemsJoin(a.results, b.results);
    Sum(Items(a.results), Items(b.results));
    Sum(a.dropped, b.dropped);
    Sum(a.abandoned, b.abandoned);
    Sum(a.attempts, b.attempts);
    var (ea, eb) := (multiset(Items(a.results)) + multiset(a.dropped), multiset(Items(b.results)) + multiset(b.dropped));
    BoundedSum(multiset(a.attempts), multiset(a.abandoned), ea, some,
               multiset(b.attempts), multiset(b.abandoned), eb, more, most);
    var (i, d, i', d') := (multiset(Items(a.results)), multiset(a.dropped), multiset(Items(b.results)), multiset(b.dropped));
    assert ea + eb == (i + i') + (d + d');
  }

  lemma Spread(n: nat, a: nat, b: nat)
    ensures Times(n, a + b) == Times(n, a) + Times(n, b)
  {}

  /** One batch of the data: its items, its rounds, and what was abandoned of it. */
  datatype Run<T, R> = Run(batch: seq<T>, rounds: seq<Round<T, R>>, abandoned: seq<T>)

  function Data<T, R>(runs: seq<Run<T, R>>): seq<T> {
    if runs == [] then [] else Data(runs[..|runs| - 1]) + runs[|runs| - 1].batch
  }

  function Abandoned<T, R>(runs: seq<Run<T, R>>): seq<T> {
    if runs == [] then [] else Abandoned(runs[..|runs| - 1]) + runs[|runs| - 1].abandoned
  }

  /** All rounds of all batches, in order. */
  function AllRounds<T, R>(runs: seq<Run<T, R>>): seq<Round<T, R>> {
    if runs == [] then [] else AllRounds(runs[..|runs| - 1]) + runs[|runs| - 1].rounds
  }

  /** The batches one after another, all of `batchSize` but perhaps the last. */
  ghost predicate Batches<T(!new), R(!new)>(runs: seq<Run<T, R>>, batchSize: nat, maxRetries: int,
                                            complete: (nat, seq<T>) -> seq<Completion<T, R>>, full: bool) {
    forall b :: 0 <= b < |runs| ==>
      && 0 < |runs[b].batch| <= batchSize && (full || b < |runs| - 1 ==> |runs[b].batch| == batchSize)
      && Ran(runs[b].rounds, runs[b].batch, |AllRounds(runs[..b])|, maxRetries, complete, runs[b].abandoned)
  }

  lemma OneRun<T, R>(runs: seq<Run<T, R>>, x: Run<T, R>)
    ensures Data(runs + [x]) == Data(runs) + x.batch && Abandoned(runs + [x]) == Abandoned(runs) + x.abandoned
    ensures AllRounds(runs + [x]) == AllRounds(runs) + x.rounds
  {
    assert (runs + [x])[..|runs|] == runs;
  }

  lemma BatchesMore<T(!new), R(!new)>(runs: seq<Run<T, R>>, x: Run<T, R>, batchSize: nat, maxRetries: int,
                                      complete: (nat, seq<T>) -> seq<Completion<T, R>>)
    requires Batches(runs, batchSize, maxRetries, complete, true) && 0 < |x.batch| <= batchSize
    requires Ran(x.rounds, x.batch, |AllRounds(runs)|, maxRetries, complete, x.abandoned)
    ensures Batches(runs + [x], batchSize, maxRetries, complete, |x.batch| == batchSize)
  {
    hide Ran, AllRounds;
    var more := runs + [x];
    forall b | 0 <= b < |more|
      ensures Ran(more[b].rounds, more[b].batch, |AllRounds(more[..b])|, maxRetries, complete, more[b].abandoned)
    {
      if b < |runs| { assert more[..b] == runs[..b]; } else { assert more[..b] == runs; }
    }
  }

  lemma {:induction false} DoneJoin<T, R>(h: seq<Round<T, R>>, h': seq<Round<T, R>>)
    ensures Done(h + h') == Done(h) + Done(h') && Tried(h + h') == Tried(h) + Tried(h')
    decreases |h'|
  {
    if h' == [] {
      assert h + h' == h;
    } else {
      hide Done, Tried;
      var (before, x) := (h'[..|h'| - 1], h'[|h'| - 1]);
      DoneJoin(h, before);
      assert h + h' == (h + before) + [x] && h' == before + [x];
      DoneMore(h + before, x);
      DoneMore(before, x);
    }
  }

  lemma RunReports<T(!new), R(!new)>(r: Report<T, R>, h: seq<Round<T, R>>, r': Report<T, R>, h': seq<Round<T, R>>)
    requires Reports(r, Done(h)) && r.attempts == Tried(h) && Reports(r', Done(h')) && r'.attempts == Tried(h')
    ensures Reports(Join(r, r'), Done(h + h')) && Join(r, r').attempts == Tried(h + h')
  {
    hide Reports, Done, Tried;
    DoneJoin(h, h');
    ReportsMore(r, Done(h), r', Done(h'));
  }

  /** For every outcome of every attempt, every order of completion and every batch size: the items of
      `data` are each yielded, dropped or abandoned, exactly once; each is attempted at most as often
      as retries allow, and exactly that often before it is abandoned; and the count is of those yielded.
      Over all rounds, what is yielded are the results and what is dropped are the failures, in order. */
  method BatchProcess<T(!new), R(!new)>(data: seq<T>, batchSize: nat, maxRetries: int,
                                        complete: (nat, seq<T>) -> seq<Completion<T, R>>)
    returns (r: Report<T, R>, processed: nat, ghost runs: seq<Run<T, R>>)
    requires batchSize > 0 && Completes(complete)
    ensures Accounts(r, multiset(data)) && Results(r) && Attempted(r, multiset(data), Most(maxRetries))
    ensures processed == |r.results|
    ensures Batches(runs, batchSize, maxRetries, complete, false) && Data(runs) == data
    ensures Reports(r, Done(AllRounds(runs))) && r.attempts == Tried(AllRounds(runs)) && r.abandoned == Abandoned(runs)
  {
    hide Accounts, Attempted, Items, Reports, Batches, Ran, Done, Tried, Data, AllRounds, Abandoned;
    var rounds: nat, i: nat := 0, 0;
    r, processed, runs := Nothing(), 0, [];
    Empty<T, R>(Most(maxRetries));
    NoRuns(batchSize, maxRetries, complete);
    assert data[..0] == [];
    while i < |data|
      invariant i <= |data| && processed == |r.results|
      invariant Accounts(r, multiset(data[..i])) && Results(r) && Attempted(r, multiset(data[..i]), Most(maxRetries))
      invariant Batches(runs, batchSize, maxRetries, complete, i < |data|) && Data(runs) == data[..i]
      invariant Reports(r, Done(AllRounds(runs))) && r.attempts == Tried(AllRounds(runs))
      invariant rounds == |AllRounds(runs)| && r.abandoned == Abandoned(runs)
    {
      var end := if i + batchSize <= |data| then i + batchSize else |data|;
      var report;
      ghost var h;
      report, rounds, h := ProcessBatch(data[i..end], maxRetries, rounds, complete);
      Joined(r, report, multiset(data[..i]), multiset(data[i..end]), Most(maxRetries));
      assert data[..end] == data[..i] + data[i..end];
      ghost var run := Run(data[i..end], h, report.abandoned);
      RunReports(r, AllRounds(runs), report, h);
      BatchesMore(runs, run, batchSize, maxRetries, complete);
      OneRun(runs, run);
      runs := runs + [run];
      LastBatch(runs, batchSize, maxRetries, complete, |run.batch| == batchSize);
      r := Join(r, report);
      processed := processed + |report.results|;
      i := end;
    }
    assert data[..|data|] == data;
    LastBatch(runs, batchSize, maxRetries, complete, false);
  }

  lemma NoRuns<T(!new), R(!new)>(batchSize: nat, maxRetries: int, complete: (nat, seq<T>) -> seq<Completion<T, R>>)
    ensures Batches([], batchSize, maxRetries, complete, true) && Batches([], batchSize, maxRetries, complete, false)
    ensures Data<T, R>([]) == [] && Abandoned<T, R>([]) == []
    ensures AllRounds<T, R>([]) == [] && Reports<T, R>(Nothing(), Done<T, R>([])) && Tried<T, R>([]) == []
  {
    hide Reports;
    ReportsNothing<T, R>();
  }

  lemma LastBatch<T(!new), R(!new)>(runs: seq<Run<T, R>>, batchSize: nat, maxRetries: int,
                                    complete: (nat, seq<T>) -> seq<Completion<T, R>>, full: bool)
    requires Batches(runs, batchSize, maxRetries, complete, full)
    ensures Batches(runs, batchSize, maxRetries, complete, false)
  {
    hide Ran, AllRounds;
  }

  lemma Empty<T(!new), R>(most: nat)
    ensures var r: Report<T, R> := Nothing();
      Accounts(r, multiset([])) && Results(r) && Attempted(r, multiset([]), most)
  {
    assert Items<T, R>([]) == [];
  }

  // ---------------------------------------------------------------- what is abandoned

  /** `x` asked to be tried again in a round. */
  ghost predicate Asked<T(!new), R(!new)>(done: seq<Completion<T, R>>, x: T) {
    exists k :: 0 <= k < |done| && done[k].item == x && done[k].outcome.Retryable?
  }

  /** An item asks to be tried again in every round up to one in which it does. */
  lemma {:induction false} AskedBefore<T(!new), R(!new)>(h: seq<Round<T, R>>, batch0: seq<T>, first: nat,
      complete: (nat, seq<T>) -> seq<Completion<T, R>>, next: seq<T>, j: nat, x: T)
    requires Completes(complete) && Follows(h, batch0, first, complete, next) && j < |h| && x in next
    ensures Asked(h[j].done, x)
    decreases |h| - j
  {
    hide Items;
    if j == |h| - 1 {
      AskedNow(h[j].done, next, x);
    } else {
      AskedBefore(h, batch0, first, complete, next, j + 1, x);
      var k :| 0 <= k < |h[j + 1].done| && h[j + 1].done[k].item == x && h[j + 1].done[k].outcome.Retryable?;
      assert x in Items(h[j + 1].done) by { assert Items(h[j + 1].done)[k] == x; }
      assert x in multiset(h[j + 1].batch);
      AskedNow(h[j].done, h[j + 1].batch, x);
    }
  }

  lemma AskedNow<T(!new), R(!new)>(done: seq<Completion<T, R>>, next: seq<T>, x: T)
    requires PicksItems(done, Retry, next) && x in next
    ensures Asked(done, x)
  {
    hide Items, AllPlaced, Rising;
    var picked :| Picks(done, Retry, picked) && next == Items(picked);
    var at :| PicksAt(done, Retry, picked, at);
    var i :| 0 <= i < |next| && next[i] == x;
    assert picked[i] == done[at[i]];
  }

  /** An abandoned item asked to be tried again in every one of as many rounds as there may be. */
  lemma AbandonedAsked<T(!new), R(!new)>(run: Run<T, R>, first: nat, maxRetries: int,
                                         complete: (nat, seq<T>) -> seq<Completion<T, R>>, x: T)
    requires Completes(complete) && Ran(run.rounds, run.batch, first, maxRetries, complete, run.abandoned)
    requires x in run.abandoned
    ensures |run.rounds| == Most(maxRetries) && forall j :: 0 <= j < |run.rounds| ==> Asked(run.rounds[j].done, x)
  {
    hide Follows, Asked;
    forall j | 0 <= j < |run.rounds| ensures Asked(run.rounds[j].done, x) {
      AskedBefore(run.rounds, run.batch, first, complete, run.abandoned, j, x);
    }
  }
}
