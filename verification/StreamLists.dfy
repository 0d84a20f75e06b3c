/** Capping and interleaving lists of streams (python-deprecated/utils/parser.py). */
module StreamLists {
  import opened Basics

  // ---------------------------------------------------------------- caps

  /** How many of the first `n` streams have the resolution. */
  function CountOf<T, K(==)>(streams: seq<T>, key: T -> K, r: K, n: nat): nat
    requires n <= |streams|
  {
    if n == 0 then 0 else CountOf(streams, key, r, n - 1) + if key(streams[n - 1]) == r then 1 else 0
  }

  /** Those of the first `n` with fewer than `max` of their resolution before them. */
  function Limited<T, K(==)>(streams: seq<T>, key: T -> K, max: int, n: nat): seq<T>
    requires n <= |streams|
  {
    if n == 0 then []
    else
      var s := streams[n - 1];
      Limited(streams, key, max, n - 1) + if CountOf(streams, key, key(s), n - 1) < max then [s] else []
  }

  function Of<T, K(==)>(streams: seq<T>, key: T -> K, r: K): seq<T> {
    if streams == [] then []
    else Of(streams[..|streams| - 1], key, r) + if key(streams[|streams| - 1]) == r then [streams[|streams| - 1]] else []
  }

  /** `s[:n]` of Python. */
  function Slice<T>(s: seq<T>, n: int): (r: seq<T>)
    ensures r <= s && |r| == if n < 0 then Max(|s| + n, 0) else Min(n, |s|)
  {
    if n >= |s| then s else if n >= 0 then s[..n] else if n + |s| >= 0 then s[..n + |s|] else []
  }

  /** Steps 4 and 5 of `filter_and_sort_streams`, on the sorted streams. */
  method LimitStreams<T, K(==)>(streams: seq<T>, key: T -> K, maxPerResolution: int, maxStreams: int, capTotal: bool)
    returns (limited: seq<T>)
    ensures var all := Limited(streams, key, maxPerResolution, |streams|);
      limited == if capTotal then Slice(all, maxStreams) else all
    // the cap leaves the first streams
    ensures limited <= Limited(streams, key, maxPerResolution, |streams|)
    ensures capTotal && maxStreams >= 0 ==> |limited| <= maxStreams
  {
    limited := [];
    var counts: map<K, int> := map[];
    for i := 0 to |streams|
      invariant limited == Limited(streams, key, maxPerResolution, i)
      invariant forall r :: r in counts ==> counts[r] == Capped(CountOf(streams, key, r, i), maxPerResolution)
      invariant forall r :: r !in counts ==> Capped(CountOf(streams, key, r, i), maxPerResolution) == 0
    {
      var r := key(streams[i]);
      var count := if r in counts then counts[r] else 0;
      assert count == Capped(CountOf(streams, key, r, i), maxPerResolution);
      if count < maxPerResolution {
        limited := limited + [streams[i]];
        counts := counts[r := count + 1];
      }
    }
    if capTotal {
      limited := Slice(limited, maxStreams);
    }
  }

  /** The counter stops at the cap. */
  function Capped(count: nat, max: int): int { if max <= 0 then 0 else Min(count, max) }

  lemma OfSnoc<T, K>(s: seq<T>, x: T, key: T -> K, r: K)
    ensures Of(s + [x], key, r) == Of(s, key, r) + if key(x) == r then [x] else []
  {
    assert (s + [x])[..|s|] == s;
  }

  lemma {:induction false} CountIsLength<T, K>(streams: seq<T>, key: T -> K, r: K, n: nat)
    requires n <= |streams|
    ensures CountOf(streams, key, r, n) == |Of(streams[..n], key, r)|
    decreases n
  {
    if n > 0 {
      CountIsLength(streams, key, r, n - 1);
      assert streams[..n] == streams[..n - 1] + [streams[n - 1]];
      OfSnoc(streams[..n - 1], streams[n - 1], key, r);
    }
  }

  lemma TakeSnoc<T>(a: seq<T>, x: T, max: nat)
    ensures a[..Min(max, |a|)] + (if |a| < max then [x] else []) == (a + [x])[..Min(max, |a + [x]|)]
  {}

  /** One more stream of the resolution, kept or not. */
  lemma OneMore<T>(kept: seq<T>, all: seq<T>, x: T, max: nat, ofIt: bool, room: bool)
    requires kept == all[..Min(max, |all|)] && (ofIt ==> (room <==> |all| < max))
    ensures var (kept', all') := (kept + if ofIt && room then [x] else [], all + if ofIt then [x] else []);
      kept' == all'[..Min(max, |all'|)]
  {
    if ofIt {
      TakeSnoc(all, x, max);
    } else {
      assert all + [] == all && kept + [] == kept;
    }
  }

  lemma LimitedOf<T, K>(streams: seq<T>, key: T -> K, max: nat, r: K, n: nat)
    requires 0 < n <= |streams|
    ensures var (x, room) := (streams[n - 1], CountOf(streams, key, key(streams[n - 1]), n - 1) < max);
      && Of(Limited(streams, key, max, n), key, r)
         == Of(Limited(streams, key, max, n - 1), key, r) + (if key(x) == r && room then [x] else [])
      && Of(streams[..n], key, r) == Of(streams[..n - 1], key, r) + if key(x) == r then [x] else []
  {
    hide Of, Limited, CountOf;
    var (x, limited) := (streams[n - 1], Limited(streams, key, max, n - 1));
    LimitedStep(streams, key, max, n);
    OfSnoc(limited, x, key, r);
    OfSnoc(streams[..n - 1], x, key, r);
    assert streams[..n] == streams[..n - 1] + [x];
    assert limited + [] == limited && Of(limited, key, r) + [] == Of(limited, key, r);
  }

  lemma NoStreams<T, K>(streams: seq<T>, key: T -> K, max: nat, r: K)
    ensures Of(streams[..0], key, r) == [] && Of(Limited(streams, key, max, 0), key, r) == []
  {}

  /** Of every resolution exactly the first `max` are kept, or all if there are fewer. */
  lemma {:induction false} FirstOfEach<T, K>(streams: seq<T>, key: T -> K, max: nat, r: K, n: nat)
    requires n <= |streams|
    ensures var all := Of(streams[..n], key, r);
      Of(Limited(streams, key, max, n), key, r) == all[..Min(max, |all|)]
    decreases n
  {
    hide Of, Limited, CountOf;
    if n == 0 {
      NoStreams(streams, key, max, r);
    } else {
      FirstOfEach(streams, key, max, r, n - 1);
      LimitedOf(streams, key, max, r, n);
      CountIsLength(streams, key, r, n - 1);
      var (x, all) := (streams[n - 1], Of(streams[..n - 1], key, r));
      OneMore(Of(Limited(streams, key, max, n - 1), key, r), all, x, max, key(x) == r,
              CountOf(streams, key, key(x), n - 1) < max);
    }
  }

  lemma LimitedStep<T, K>(streams: seq<T>, key: T -> K, max: int, n: nat)
    requires 0 < n <= |streams|
    ensures var x := streams[n - 1];
      Limited(streams, key, max, n) ==
        Limited(streams, key, max, n - 1) + if CountOf(streams, key, key(x), n - 1) < max then [x] else []
  {}

  /** The positions kept increase, so the order stays. */
  function KeptAt<T, K(==)>(streams: seq<T>, key: T -> K, max: int, n: nat): seq<nat>
    requires n <= |streams|
  {
    if n == 0 then []
    else KeptAt(streams, key, max, n - 1) + if CountOf(streams, key, key(streams[n - 1]), n - 1) < max then [n - 1] else []
  }

  lemma {:induction false} KeepsOrder<T, K>(streams: seq<T>, key: T -> K, max: int, n: nat)
    requires n <= |streams|
    ensures var (at, kept) := (KeptAt(streams, key, max, n), Limited(streams, key, max, n));
      && |at| == |kept| && (forall i :: 0 <= i < |at| ==> at[i] < n && kept[i] == streams[at[i]])
      && (forall i, j :: 0 <= i < j < |at| ==> at[i] < at[j])
    decreases n
  {
    if n > 0 { KeepsOrder(streams, key, max, n - 1); }
  }

  // ---------------------------------------------------------------- interleaving

  /** A stream by its place in the list of its provider. */
  datatype Place = Place(pos: nat, provider: nat)

  predicate Exists<T>(lists: seq<seq<T>>, p: Place) { p.provider < |lists| && p.pos < |lists[p.provider]| }

  predicate Earlier(p: Place, q: Place) { p.pos < q.pos || (p.pos == q.pos && p.provider < q.provider) }

  ghost predicate InOrder(r: seq<Place>) {
    forall i, j :: 0 <= i < j < |r| ==> Earlier(r[i], r[j])
  }

  /** The stream at a place, if there is one. */
  function One<T>(lists: seq<seq<T>>, p: Place): seq<T> {
    if Exists(lists, p) then [lists[p.provider][p.pos]] else []
  }

  function At<T>(lists: seq<seq<T>>, places: seq<Place>): seq<T> {
    if places == [] then [] else At(lists, places[..|places| - 1]) + One(lists, places[|places| - 1])
  }

  /** The places of one round, of the first `n` providers. */
  function RoundPlaces<T>(lists: seq<seq<T>>, round: nat, n: nat): seq<Place>
    requires n <= |lists|
  {
    if n == 0 then []
    else RoundPlaces(lists, round, n - 1) + if Exists(lists, Place(round, n - 1)) then [Place(round, n - 1)] else []
  }

  function AllPlaces<T>(lists: seq<seq<T>>, rounds: nat): seq<Place> {
    if rounds == 0 then [] else AllPlaces(lists, rounds - 1) + RoundPlaces(lists, rounds - 1, |lists|)
  }

  /** Length of the longest of the first `n` lists. */
  function Longest<T>(lists: seq<seq<T>>, n: nat): nat
    requires n <= |lists|
  {
    if n == 0 then 0
    else
      var rest := Longest(lists, n - 1);
      if |lists[n - 1]| >= rest then |lists[n - 1]| else rest
  }

  lemma {:induction false} LongestIs<T>(lists: seq<seq<T>>, n: nat)
    requires n <= |lists|
    ensures forall k :: 0 <= k < n ==> |lists[k]| <= Longest(lists, n)
    ensures n > 0 ==> exists k :: 0 <= k < n && |lists[k]| == Longest(lists, n)
    decreases n
  {
    if n > 0 {
      LongestIs(lists, n - 1);
      assert |lists[n - 1]| <= Longest(lists, n);
    }
  }

  lemma Appended(a: seq<Place>, b: seq<Place>)
    requires InOrder(a) && InOrder(b) && forall p, q :: p in a && q in b ==> Earlier(p, q)
    ensures InOrder(a + b)
  {
    var r := a + b;
    forall i, j | 0 <= i < j < |r| ensures Earlier(r[i], r[j]) {
      if i < |a| <= j {
        assert a[i] in a && b[j - |a|] in b;
      }
    }
  }

  lemma Single(p: Place)
    ensures InOrder([p]) && InOrder([])
  {}

  lemma {:induction false} RoundOrdered<T>(lists: seq<seq<T>>, round: nat, n: nat)
    requires n <= |lists|
    ensures InOrder(RoundPlaces(lists, round, n))
    ensures forall p :: p in RoundPlaces(lists, round, n) <==> Exists(lists, p) && p.pos == round && p.provider < n
    decreases n
  {
    hide InOrder, Exists;
    Single(Place(round, n));
    if n > 0 {
      var last := Place(round, n - 1);
      RoundOrdered(lists, round, n - 1);
      Single(last);
      Appended(RoundPlaces(lists, round, n - 1), if Exists(lists, last) then [last] else []);
    }
  }

  lemma {:induction false} RoundsOrdered<T>(lists: seq<seq<T>>, rounds: nat)
    ensures InOrder(AllPlaces(lists, rounds))
    ensures forall p :: p in AllPlaces(lists, rounds) <==> Exists(lists, p) && p.pos < rounds
    decreases rounds
  {
    hide InOrder, RoundPlaces;
    Single(Place(0, 0));
    if rounds > 0 {
      RoundsOrdered(lists, rounds - 1);
      RoundOrdered(lists, rounds - 1, |lists|);
      Appended(AllPlaces(lists, rounds - 1), RoundPlaces(lists, rounds - 1, |lists|));
    }
  }

  /** Every stream of every provider is there, strictly in the order of place and then provider; so
      exactly once. */
  lemma EachOnceInOrder<T>(lists: seq<seq<T>>)
    ensures var r := AllPlaces(lists, Longest(lists, |lists|));
      && (forall p :: p in r <==> Exists(lists, p))
      && InOrder(r)
  {
    hide InOrder;
    RoundsOrdered(lists, Longest(lists, |lists|));
    LongestIs(lists, |lists|);
  }

  /** The streams stand at these places. */
  ghost predicate StandsAt<T(!new)>(lists: seq<seq<T>>, all: seq<T>, places: seq<Place>) {
    |places| == |all| &&
    forall i :: 0 <= i < |all| ==>
      Exists(lists, places[i]) && all[i] == lists[places[i].provider][places[i].pos]
  }

  /** Every stream of every provider, taken from its place, exactly once: the first of each provider in the order of
      providers, then the second of each, and so on. */
  ghost predicate RoundRobin<T(!new)>(lists: seq<seq<T>>, all: seq<T>) {
    exists places ::
      StandsAt(lists, all, places) && InOrder(places) && forall p :: Exists(lists, p) ==> p in places
  }

  lemma {:induction false} AtStands<T(!new)>(lists: seq<seq<T>>, places: seq<Place>)
    requires forall i :: 0 <= i < |places| ==> Exists(lists, places[i])
    ensures StandsAt(lists, At(lists, places), places)
    decreases |places|
  {
    if places == [] {
      assert At(lists, places) == [];
    } else {
      hide At, Exists;
      var (before, p) := (places[..|places| - 1], places[|places| - 1]);
      assert before + [p] == places;
      AtStands(lists, before);
      AtSnoc(lists, before, p);
      StandsMore(lists, At(lists, before), before, p);
    }
  }

  lemma StandsMore<T(!new)>(lists: seq<seq<T>>, all: seq<T>, places: seq<Place>, p: Place)
    requires StandsAt(lists, all, places) && Exists(lists, p)
    ensures StandsAt(lists, all + One(lists, p), places + [p])
  {
    var (all', places') := (all + [lists[p.provider][p.pos]], places + [p]);
    assert One(lists, p) == [lists[p.provider][p.pos]];
    hide Exists;
    forall i | 0 <= i < |all'| ensures Exists(lists, places'[i]) && all'[i] == lists[places'[i].provider][places'[i].pos] {
      if i < |all| { assert places'[i] == places[i] && all'[i] == all[i]; }
    }
  }

  lemma AllStand<T(!new)>(lists: seq<seq<T>>)
    ensures RoundRobin(lists, At(lists, AllPlaces(lists, Longest(lists, |lists|))))
  {
    hide InOrder, StandsAt, AllPlaces, Longest, Exists;
    var places := AllPlaces(lists, Longest(lists, |lists|));
    EachOnceInOrder(lists);
    AtStands(lists, places);
  }

  // ---------------------------------------------------------------- the iterators

  /** An iterator over the list of a provider. */
  datatype Iter = Iter(provider: nat, pos: nat)

  function Next(it: Iter): Place { Place(it.pos, it.provider) }

  function Advanced<T>(lists: seq<seq<T>>, it: Iter): Iter {
    if Exists(lists, Next(it)) then it.(pos := it.pos + 1) else it
  }

  function AllAdvanced<T>(lists: seq<seq<T>>, its: seq<Iter>): (r: seq<Iter>)
    ensures |r| == |its|
  {
    if its == [] then [] else AllAdvanced(lists, its[..|its| - 1]) + [Advanced(lists, its[|its| - 1])]
  }

  /** What a round takes from the iterators. */
  function Taken<T>(lists: seq<seq<T>>, its: seq<Iter>): seq<Place> {
    if its == [] then []
    else
      var p := Next(its[|its| - 1]);
      Taken(lists, its[..|its| - 1]) + if Exists(lists, p) then [p] else []
  }

  /** The iterators at the start of a round: lists that are long enough, in order. */
  function Running<T>(lists: seq<seq<T>>, round: nat, n: nat): seq<Iter>
    requires n <= |lists|
  {
    if n == 0 then []
    else Running(lists, round, n - 1) + if |lists[n - 1]| >= round then [Iter(n - 1, round)] else []
  }

  /** The iterators that have got to `pos`. */
  function Reaching(its: seq<Iter>, pos: nat): seq<Iter> {
    if its == [] then []
    else Reaching(its[..|its| - 1], pos) + if its[|its| - 1].pos == pos then [its[|its| - 1]] else []
  }

  lemma ReachingSnoc(its: seq<Iter>, it: Iter, pos: nat)
    ensures Reaching(its + [it], pos) == Reaching(its, pos) + if it.pos == pos then [it] else []
  {
    assert (its + [it])[..|its|] == its;
  }

  lemma AtSnoc<T>(lists: seq<seq<T>>, places: seq<Place>, p: Place)
    ensures At(lists, places + [p]) == At(lists, places) + One(lists, p)
  {
    assert (places + [p])[..|places|] == places;
  }

  lemma TakenSnoc<T>(lists: seq<seq<T>>, its: seq<Iter>, it: Iter)
    ensures Taken(lists, its + [it]) == Taken(lists, its) + if Exists(lists, Next(it)) then [Next(it)] else []
    ensures AllAdvanced(lists, its + [it]) == AllAdvanced(lists, its) + [Advanced(lists, it)]
  {
    assert (its + [it])[..|its|] == its;
  }

  /** A round takes the places of the round, and leaves the iterators of the next. */
  lemma {:induction false} OneRound<T>(lists: seq<seq<T>>, round: nat, n: nat)
    requires n <= |lists|
    ensures Taken(lists, Running(lists, round, n)) == RoundPlaces(lists, round, n)
    ensures Reaching(AllAdvanced(lists, Running(lists, round, n)), round + 1) == Running(lists, round + 1, n)
    decreases n
  {
    hide Taken, AllAdvanced, Reaching;
    if n == 0 {
      NoIterators(lists, round + 1);
    } else {
      OneRound(lists, round, n - 1);
      var (its, it) := (Running(lists, round, n - 1), Iter(n - 1, round));
      if |lists[n - 1]| < round {
        assert Running(lists, round, n) == its + [] == its;
        assert RoundPlaces(lists, round, n) == RoundPlaces(lists, round, n - 1) + [];
        assert Running(lists, round + 1, n) == Running(lists, round + 1, n - 1) + [];
      } else {
        assert Running(lists, round, n) == its + [it];
        TakenSnoc(lists, its, it);
        ReachingSnoc(AllAdvanced(lists, its), Advanced(lists, it), round + 1);
      }
    }
  }

  lemma NoIterators<T>(lists: seq<seq<T>>, pos: nat)
    ensures Taken(lists, []) == [] && Reaching(AllAdvanced(lists, []), pos) == []
  {}

  lemma {:induction false} AtSum<T>(lists: seq<seq<T>>, a: seq<Place>, b: seq<Place>)
    ensures At(lists, a + b) == At(lists, a) + At(lists, b)
    decreases |b|
  {
    if b == [] {
      assert a + b == a;
    } else {
      var (b', p) := (b[..|b| - 1], b[|b| - 1]);
      assert b == b' + [p] && a + b == a + b' + [p];
      AtSum(lists, a, b');
      AtSnoc(lists, a + b', p);
      AtSnoc(lists, b', p);
    }
  }

  /** The positions, among the first `n`, of the iterators that have not got to `pos`. */
  function Exhausted(its: seq<Iter>, pos: nat, n: nat): seq<nat>
    requires n <= |its|
  {
    if n == 0 then [] else Exhausted(its, pos, n - 1) + if its[n - 1].pos != pos then [n - 1] else []
  }

  lemma {:induction false} ExhaustedPrefix(a: seq<Iter>, b: seq<Iter>, pos: nat, n: nat)
    requires n <= |a| && n <= |b| && a[..n] == b[..n]
    ensures Exhausted(a, pos, n) == Exhausted(b, pos, n)
    decreases n
  {
    if n > 0 {
      assert a[n - 1] == a[..n][n - 1] == b[..n][n - 1] == b[n - 1];
      assert a[..n - 1] == a[..n][..n - 1] == b[..n][..n - 1] == b[..n - 1];
      ExhaustedPrefix(a, b, pos, n - 1);
    }
  }

  /** Where the last exhausted iterator stands; behind it all have got to `pos`. */
  lemma {:induction false} LastExhausted(its: seq<Iter>, pos: nat, n: nat) returns (m: nat)
    requires n <= |its| && Exhausted(its, pos, n) != []
    ensures m < n && its[m].pos != pos && Exhausted(its, pos, n) == Exhausted(its, pos, m) + [m]
    ensures Reaching(its[..n], pos) + its[n..] == Reaching(its[..m], pos) + its[m + 1..]
    decreases n
  {
    var it := its[n - 1];
    assert its[..n] == its[..n - 1] + [it];
    ReachingSnoc(its[..n - 1], it, pos);
    if it.pos != pos {
      m := n - 1;
    } else {
      m := LastExhausted(its, pos, n - 1);
      assert its[n - 1..] == [it] + its[n..];
    }
  }

  lemma {:induction false} NoneExhausted(its: seq<Iter>, pos: nat, n: nat)
    requires n <= |its| && Exhausted(its, pos, n) == []
    ensures Reaching(its[..n], pos) == its[..n]
    decreases n
  {
    if n > 0 {
      NoneExhausted(its, pos, n - 1);
      assert its[..n] == its[..n - 1] + [its[n - 1]];
      ReachingSnoc(its[..n - 1], its[n - 1], pos);
    }
  }

  /** Pops the exhausted iterators from the end on. */
  method PopExhausted(its: seq<Iter>, pos: nat, exhausted: seq<nat>) returns (r: seq<Iter>)
    requires exhausted == Exhausted(its, pos, |its|)
    ensures r == Reaching(its, pos)
  {
    hide Reaching, Exhausted;
    r := its;
    ghost var n := |its|;
    assert its[..n] == its && its[n..] == [];
    var k: nat := |exhausted|;
    while k > 0
      invariant k <= |exhausted| && n <= |r| && exhausted[..k] == Exhausted(r, pos, n)
      invariant Reaching(r[..n], pos) + r[n..] == Reaching(its, pos)
    {
      k := k - 1;
      ghost var m := LastExhausted(r, pos, n);
      assert exhausted[..k + 1] == exhausted[..k] + [exhausted[k]];
      var i := exhausted[k];
      ghost var before := r;
      r := r[..i] + r[i + 1..];
      assert r[..m] == before[..m] && r[m..] == before[m + 1..];
      ExhaustedPrefix(before, r, pos, m);
      n := m;
    }
    NoneExhausted(r, pos, n);
    assert r == r[..n] + r[n..];
  }

  /** One round: the next stream of every iterator that has one. */
  method TakeRound<T>(lists: seq<seq<T>>, its0: seq<Iter>, round: nat)
    returns (taken: seq<T>, its: seq<Iter>, exhausted: seq<nat>)
    requires forall it :: it in its0 ==> it.pos == round
    ensures taken == At(lists, Taken(lists, its0)) && its == AllAdvanced(lists, its0)
    ensures exhausted == Exhausted(its, round + 1, |its|)
  {
    hide At, Taken, AllAdvanced;
    taken, its, exhausted := [], its0, [];
    NoRound(lists);
    for i := 0 to |its0|
      invariant |its| == |its0| && its[..i] == AllAdvanced(lists, its0[..i]) && its[i..] == its0[i..]
      invariant exhausted == Exhausted(its, round + 1, i)
      invariant taken == At(lists, Taken(lists, its0[..i]))
    {
      var it := its[i];
      assert it == its[i..][0] == its0[i];
      assert its0[..i + 1] == its0[..i] + [it];
      TakenSnoc(lists, its0[..i], it);
      AtSnoc(lists, Taken(lists, its0[..i]), Next(it));
      ghost var before := its;
      if it.provider < |lists| && it.pos < |lists[it.provider]| {
        taken := taken + [lists[it.provider][it.pos]];
        its := its[i := it.(pos := it.pos + 1)];
      } else {
        assert Taken(lists, its0[..i]) + [] == Taken(lists, its0[..i]);
        exhausted := exhausted + [i];
      }
      assert its[..i] == before[..i];
      ExhaustedPrefix(before, its, round + 1, i);
      assert its[..i + 1] == its[..i] + [Advanced(lists, it)];
      assert its[i + 1..] == before[i..][1..] == its0[i + 1..];
    }
    assert its0[..|its0|] == its0 && its[..|its|] == its;
  }

  lemma NoRound<T>(lists: seq<seq<T>>)
    ensures At(lists, Taken(lists, [])) == [] && AllAdvanced(lists, []) == []
    ensures At(lists, AllPlaces(lists, 0)) == []
  {}

  /** The mixed grouping of `parse_stream_data`: round by round, one stream of each provider. */
  method Interleave<T(!new)>(lists: seq<seq<T>>) returns (all: seq<T>)
    ensures all == At(lists, AllPlaces(lists, Longest(lists, |lists|)))
    ensures RoundRobin(lists, all)
  {
    hide Running, RoundPlaces, Taken, At, Reaching, AllAdvanced, Exhausted, Longest, RoundRobin;
    AllStand(lists);
    var iterators := StartIterators(lists);
    ghost var round: nat := 0;
    all := [];
    NoRound(lists);
    while iterators != []
      invariant iterators == Running(lists, round, |lists|) && all == At(lists, AllPlaces(lists, round))
      decreases Longest(lists, |lists|) + 1 - round
    {
      AtRound(lists, round, |lists|);
      var pos := iterators[0].pos;
      var taken, its, exhausted := TakeRound(lists, iterators, pos);
      OneRound(lists, round, |lists|);
      AtSum(lists, AllPlaces(lists, round), RoundPlaces(lists, round, |lists|));
      all := all + taken;
      iterators := PopExhausted(its, pos + 1, exhausted);
      round := round + 1;
    }
    AtRound(lists, round, |lists|);
    SameFromLongest(lists, round);
  }

  /** One iterator for each list. */
  method StartIterators<T>(lists: seq<seq<T>>) returns (its: seq<Iter>)
    ensures its == Running(lists, 0, |lists|)
  {
    its := [];
    for i := 0 to |lists|
      invariant its == Running(lists, 0, i)
    {
      its := its + [Iter(i, 0)];
    }
  }

  lemma {:induction false} AtRound<T>(lists: seq<seq<T>>, round: nat, n: nat)
    requires n <= |lists|
    ensures forall it :: it in Running(lists, round, n) ==> it.pos == round
    ensures Running(lists, round, n) != [] <==> n > 0 && round <= Longest(lists, n)
    ensures n == 0 ==> Longest(lists, n) == 0
    decreases n
  {
    if n > 0 {
      AtRound(lists, round, n - 1);
      if n == 1 { assert Longest(lists, 0) == 0; }
    }
  }

  lemma {:induction false} NoMore<T>(lists: seq<seq<T>>, rounds: nat, n: nat)
    requires n <= |lists| && rounds >= Longest(lists, n)
    ensures RoundPlaces(lists, rounds, n) == []
    decreases n
  {
    if n > 0 { NoMore(lists, rounds, n - 1); }
  }

  lemma {:induction false} SameFromLongest<T>(lists: seq<seq<T>>, rounds: nat)
    requires rounds >= Longest(lists, |lists|)
    ensures AllPlaces(lists, rounds) == AllPlaces(lists, Longest(lists, |lists|))
    decreases rounds
  {
    hide Longest, RoundPlaces;
    if rounds > Longest(lists, |lists|) {
      SameFromLongest(lists, rounds - 1);
      NoMore(lists, rounds - 1, |lists|);
      assert AllPlaces(lists, rounds) == AllPlaces(lists, rounds - 1) + [];
    }
  }
}
