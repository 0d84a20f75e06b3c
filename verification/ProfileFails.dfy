/** When splitting a profile raises, when merging does not, and where it writes
    (python-deprecated/utils/profile_crypto.py). */
module ProfileFails {
  import opened Basics
  import opened ProfileSecrets
  import opened Wrappers

  // ---------------------------------------------------------------- splitting

  /** A nested configuration that is no dictionary, nor nothing, and for a text or a list has one of the names in it. */
  predicate OddValue(j: Json, ps: seq<Pair>) {
    match j
    case Bool(b) => b
    case Num(n) => n != 0
    case Str(s) => s != "" && exists p :: p in ps && (Contains(s, p.full) || Contains(s, p.alias))
    case Arr(items) => exists p :: p in ps && (Str(p.full) in items || Str(p.alias) in items)
    case _ => false
  }

  /** Such a configuration is looked into. */
  ghost predicate Odd(m: Dict, s: Stage)
    decreases s, 0
  {
    match s
    case Fields(_) => false
    case Nested(key, ps) => OddNested(m, key, ps)
    case External(key, ps) => OddNested(m, key, ps)
    case Single(key, inner) => var k := ActiveSingle(m, key); k.Some? && OddAny(m[k.value].fields, inner)
    case Many(key, inner) =>
      var k := ActiveMany(m, key);
      k.Some? && exists i :: 0 <= i < |m[k.value].items| && OddAt(m[k.value].items[i], inner)
  }

  predicate OddNested(m: Dict, key: Pair, ps: seq<Pair>) {
    if key.full in m then OddValue(m[key.full], ps) else key.alias in m && OddValue(m[key.alias], ps)
  }

  ghost predicate OddAny(m: Dict, stages: seq<Stage>)
    decreases stages, 1
  {
    exists s :: s in stages && Odd(m, s)
  }

  ghost predicate OddAt(j: Json, inner: seq<Stage>)
    decreases inner, 2
  {
    j.Obj? && OddAny(j.fields, inner)
  }

  lemma {:induction false} NamesAre(ps: seq<Pair>, n: string)
    ensures n in Names(ps) <==> exists p :: p in ps && (n == p.full || n == p.alias)
    decreases ps
  {
    if ps != [] {
      NamesAre(ps[1..], n);
      assert forall p :: p in ps <==> p == ps[0] || p in ps[1..];
    }
  }

  lemma OddRaises(j: Json, ps: seq<Pair>)
    ensures OddValue(j, ps) <==> IsTrue(j) && Raises(j, ps)
  {
    hide Contains, Names;
    forall n ensures n in Names(ps) <==> exists p :: p in ps && (n == p.full || n == p.alias) { NamesAre(ps, n); }
    forall p | p in ps ensures p.full in Names(ps) && p.alias in Names(ps) {}
  }

  lemma NestedFailsIff(m: Dict, key: Pair, ps: seq<Pair>)
    ensures ExtractNested(m, key, ps).None? <==> OddNested(m, key, ps)
  {
    hide OddValue, IsTrue, Raises, TakeFields, Lift;
    if Active(m, key).Some? { OddRaises(m[Active(m, key).value], ps); }
  }

  lemma {:induction false} StageFailsIff(m: Dict, s: Stage)
    requires WellFormed(s)
    ensures ExtractStage(m, s).None? <==> Odd(m, s)
    decreases s, 0
  {
    hide ExtractNested, OddNested, IsTrue, Lift;
    match s
    case Fields(_) =>
    case Nested(key, ps) => NestedFailsIff(m, key, ps);
    case External(key, ps) => NestedFailsIff(m, key, ps);
    case Single(key, inner) => {
      var k := ActiveSingle(m, key);
      if k.Some? { AllFailsIff(m[k.value].fields, inner); }
    }
    case Many(key, inner) =>
      var k := ActiveMany(m, key);
      if k.Some? { ListFailsIff(m[k.value].items, inner, |m[k.value].items|); }
  }

  lemma {:induction false} AllFailsIff(m: Dict, stages: seq<Stage>)
    requires WellFormedAll(stages)
    ensures ExtractAll(m, stages).None? <==> OddAny(m, stages)
    decreases stages, 1
  {
    hide ExtractAll, ExtractStage, WellFormed, WellFormedAll, Odd;
    forall s | s in stages ensures ExtractStage(m, s).None? <==> Odd(m, s) {
      WellFormedIn(stages, s);
      StageFailsIff(m, s);
    }
    if ExtractAll(m, stages).Some? {
      forall s | s in stages ensures ExtractStage(m, s).Some? { ExtractAllAt(m, stages, s); }
    } else if forall s :: s in stages ==> ExtractStage(m, s).Some? {
      ExtractAllSucceeds(m, stages);
      assert false;
    }
  }

  lemma {:induction false} ListFailsIff(items: seq<Json>, inner: seq<Stage>, n: nat)
    requires WellFormedAll(inner) && n <= |items|
    ensures ExtractList(items, inner, n).None? <==> exists i :: 0 <= i < n && OddAt(items[i], inner)
    decreases inner, 2, n
  {
    hide ExtractAll, WellFormedAll, OddAny;
    if n > 0 {
      ListFailsIff(items, inner, n - 1);
      if items[n - 1].Obj? { AllFailsIff(items[n - 1].fields, inner); }
      assert OddAt(items[n - 1], inner) ==> exists i :: 0 <= i < n && OddAt(items[i], inner);
    }
  }

  /** Splitting raises exactly if a downloader or an external service that is looked into is true but no dictionary: a
      number, or a text or a list with the name of a credential in it. */
  lemma SplitFailsIff(config: Dict)
    ensures Extract(config).None? <==> OddAny(config, PROFILE)
  {
    hide ExtractAll, WellFormedAll, OddAny;
    ProfileWellFormed();
    AllFailsIff(config, PROFILE);
  }

  // ---------------------------------------------------------------- merging

  /** What is there under either of the names is a dictionary. */
  predicate Shape(m: Dict, key: Pair) {
    (key.full in m ==> m[key.full].Obj?) && (key.alias in m ==> m[key.alias].Obj?)
  }

  /** Steps of one provider. */
  predicate Flat(stages: seq<Stage>) {
    forall s :: s in stages ==> s.Fields? || s.Nested?
  }

  predicate FlatShaped(m: Dict, stages: seq<Stage>) {
    forall s :: s in stages && s.Nested? ==> Shape(m, s.key)
  }

  predicate ShapedProvider(j: Json, stages: seq<Stage>) {
    j.Obj? && FlatShaped(j.fields, stages)
  }

  predicate ShapedList(j: Json, stages: seq<Stage>) {
    j.Arr? && forall i :: 0 <= i < |j.items| ==> ShapedProvider(j.items[i], stages)
  }

  lemma IntoShaped(m: Dict, x: Dict, key: Pair, from: string, ps: seq<Pair>, created: string)
    requires Shape(m, key) && Shape(x, key) && from in Both(key) && created in Both(key)
    ensures MergeInto(m, x, key, from, ps, created).Some? && Shape(MergeInto(m, x, key, from, ps, created).value, key)
  {
    hide Names;
  }

  lemma NestedShaped(m: Dict, x: Dict, s: Stage)
    requires (s.Nested? || s.External?) && Shape(m, s.key) && Shape(x, s.key)
    ensures MergeStage(m, x, s).Some? && Shape(MergeStage(m, x, s).value, s.key)
  {
    hide MergeInto, Names;
    if s.Nested? {
      IntoShaped(m, x, s.key, s.key.full, s.ps, s.key.full);
      IntoShaped(MergeInto(m, x, s.key, s.key.full, s.ps, s.key.full).value, x, s.key, s.key.alias, s.ps, s.key.full);
    } else if First(x, s.key).Some? {
      var from := First(x, s.key).value;
      IntoShaped(m, x, s.key, from, s.ps, from);
    }
  }

  lemma FlatMerges(m: Dict, x: Dict, stages: seq<Stage>)
    requires WellFormedAll(stages) && Flat(stages) && FlatShaped(m, stages) && FlatShaped(x, stages)
    ensures MergeAll(m, x, stages).Some? && FlatShaped(MergeAll(m, x, stages).value, stages)
  {
    hide MergeAll, MergeStage, WellFormedAll;
    forall s | s in stages
      ensures MergeStage(m, x, s).Some? && (s.Nested? ==> Shape(MergeStage(m, x, s).value, s.key))
    {
      if s.Nested? { NestedShaped(m, x, s); } else { FieldsMerge(m, x, s.ps); }
    }
    MergeAllSucceeds(m, x, stages);
    var r := MergeAll(m, x, stages).value;
    forall s | s in stages && s.Nested? ensures Shape(r, s.key) {
      MergeAllAt(m, x, stages, s);
      SameShape(MergeStage(m, x, s).value, r, s);
    }
  }

  lemma FieldsMerge(m: Dict, x: Dict, ps: seq<Pair>)
    ensures MergeStage(m, x, Fields(ps)).Some?
  {}

  lemma SameShape(m: Dict, m': Dict, s: Stage)
    requires s.Nested? && Shape(m, s.key) && Agree(m', m, Keys(s))
    ensures Shape(m', s.key)
  {
    assert s.key.full in Keys(s) && s.key.alias in Keys(s);
  }

  lemma ProviderMerges(p: Json, secrets: Json, inner: seq<Stage>)
    requires WellFormedAll(inner) && Flat(inner) && ShapedProvider(p, inner) && ShapedProvider(secrets, inner)
    ensures MergeProvider(p, secrets, inner).Some? && ShapedProvider(MergeProvider(p, secrets, inner).value, inner)
  {
    hide MergeAll, FlatShaped, Flat, WellFormedAll, Inert;
    FlatMerges(p.fields, secrets.fields, inner);
  }

  /** The index of the secrets of a provider, if there is one, is a number that is not negative. */
  predicate Numbered(j: Json) {
    j.Obj? && (INDEX in j.fields ==> j.fields[INDEX].Num? && j.fields[INDEX].n >= 0)
  }

  lemma {:induction false} ListMerges(items: seq<Json>, entries: seq<Json>, inner: seq<Stage>, n: nat)
    requires WellFormedAll(inner) && Flat(inner) && n <= |entries|
    requires forall i :: 0 <= i < |items| ==> ShapedProvider(items[i], inner)
    requires forall i :: 0 <= i < |entries| ==> ShapedProvider(entries[i], inner) && Numbered(entries[i])
    ensures var r := MergeList(items, entries, inner, n);
      r.Some? && forall i :: 0 <= i < |items| ==> ShapedProvider(r.value[i], inner)
    decreases n
  {
    hide MergeProvider, ShapedProvider, Flat, WellFormedAll;
    if n > 0 {
      ListMerges(items, entries, inner, n - 1);
      var before := MergeList(items, entries, inner, n - 1).value;
      var index := IndexOf(entries[n - 1]);
      if index.value < |items| { ProviderMerges(before[index.value], entries[n - 1], inner); }
    }
  }

  /** A configuration, or secrets, in which everything that the merge looks into has the type it should have. */
  ghost predicate Shaped(m: Dict) {
    && (forall k :: k in Both(PROVIDERS.key) && k in m ==> ShapedList(m[k], PROVIDER))
    && (forall k :: k in Both(LEGACY.key) && k in m ==> ShapedProvider(m[k], PROVIDER))
    && Shape(m, MEDIAFLOW.key) && Shape(m, RPDB.key) && Shape(m, MDBLIST.key)
  }

  ghost predicate Indexed(x: Dict) {
    forall k, i :: k in Both(PROVIDERS.key) && k in x && x[k].Arr? && 0 <= i < |x[k].items| ==> Numbered(x[k].items[i])
  }

  lemma NothingShaped()
    ensures FlatShaped(map[], PROVIDER)
  {}

  lemma ProviderFlat()
    ensures Flat(PROVIDER)
  {}

  lemma ListStageMerges(m: Dict, x: Dict)
    requires Shaped(m) && Shaped(x) && Indexed(x)
    ensures MergeStage(m, x, PROVIDERS).Some?
  {
    hide ShapedProvider, Flat, WellFormedAll, MergeList, Shape;
    ProviderWellFormed();
    ProviderFlat();
    var from := First(x, PROVIDERS.key);
    if from.Some? {
      var at := Target(m, PROVIDERS.key, from.value);
      var base := if at in m then m[at] else Arr([]);
      assert at in Both(PROVIDERS.key) && from.value in Both(PROVIDERS.key);
      ListMerges(base.items, x[from.value].items, PROVIDER, |x[from.value].items|);
    }
  }

  lemma SingleStageMerges(m: Dict, x: Dict)
    requires Shaped(m) && Shaped(x)
    ensures MergeStage(m, x, LEGACY).Some?
  {
    hide Flat, WellFormedAll, MergeProvider, FlatShaped, Shape, ShapedList;
    ProviderWellFormed();
    ProviderFlat();
    NothingShaped();
    var from := First(x, LEGACY.key);
    if from.Some? {
      var at := Target(m, LEGACY.key, from.value);
      assert at in Both(LEGACY.key) && from.value in Both(LEGACY.key);
      ProviderMerges(if at in m then m[at] else Obj(map[]), x[from.value], PROVIDER);
    }
  }

  /** Merging does not raise on secrets of the right shape, whatever configuration of the right shape they are merged
      into and however far their indices reach. */
  lemma MergeAccepts(config: Dict, secrets: Dict)
    requires Shaped(config) && Shaped(secrets) && Indexed(secrets)
    ensures Merge(config, secrets).Some?
  {
    hide MergeStage, MergeAll, WellFormedAll;
    ProfileWellFormed();
    ListStageMerges(config, secrets);
    SingleStageMerges(config, secrets);
    NestedShaped(config, secrets, MEDIAFLOW);
    NestedShaped(config, secrets, RPDB);
    NestedShaped(config, secrets, MDBLIST);
    MergeAllSucceeds(config, secrets, PROFILE);
  }

  // ---------------------------------------------------------------- where merging writes

  /** Place in a list of `len` providers that an entry of the secrets is for: the first without an index, and counted from
      the end for a negative one. */
  predicate IsFor(entry: Json, len: nat, i: nat)
    requires entry.Obj?
  {
    if INDEX !in entry.fields then i == 0
    else match entry.fields[INDEX]
      case Num(n) => n == i || n == i - len
      case Bool(b) => i == if b then 1 else 0
      case _ => false
  }

  /** The provider at place `i` with those of the first `n` entries merged into it that are for it, in their order. */
  function Gets(items: seq<Json>, entries: seq<Json>, inner: seq<Stage>, i: nat, n: nat): Option<Json>
    requires i < |items| && n <= |entries| && forall k :: 0 <= k < |entries| ==> entries[k].Obj?
    decreases n
  {
    if n == 0 then Some(items[i])
    else
      var before := Gets(items, entries, inner, i, n - 1);
      if before.None? || !IsFor(entries[n - 1], |items|, i) then before
      else MergeProvider(before.value, entries[n - 1], inner)
  }

  lemma {:induction false} AllObjects(items: seq<Json>, entries: seq<Json>, inner: seq<Stage>, n: nat)
    requires n <= |entries| && MergeList(items, entries, inner, n).Some?
    ensures forall k :: 0 <= k < n ==> entries[k].Obj?
    decreases n
  {
    hide MergeProvider;
    if n > 0 { AllObjects(items, entries, inner, n - 1); }
  }

  /** Every provider of a list gets the secrets that are for it, and no others. */
  lemma {:induction false} EachGetsItsOwn(items: seq<Json>, entries: seq<Json>, inner: seq<Stage>, i: nat, n: nat)
    requires i < |items| && n <= |entries| && MergeList(items, entries, inner, n).Some?
    requires forall k :: 0 <= k < |entries| ==> entries[k].Obj?
    ensures Gets(items, entries, inner, i, n) == Some(MergeList(items, entries, inner, n).value[i])
    decreases n
  {
    hide MergeProvider, IsFor;
    if n > 0 {
      EachGetsItsOwn(items, entries, inner, i, n - 1);
      PlaceOf(entries[n - 1], |items|, i);
    }
  }

  lemma PlaceOf(entry: Json, len: nat, i: nat)
    requires IndexOf(entry).Some? && i < len
    ensures var n := IndexOf(entry).value;
      IsFor(entry, len, i) <==> n < len && i == if n < 0 then n + len else n
  {}

  /** Providers are written under the alias if that is there, else under the full name, else under the name that the secrets
      have; all else stays. Secrets of a list that is not there are lost. */
  lemma WrittenUnder(m: Dict, x: Dict, s: Stage, from: string)
    requires (s.Single? || s.Many?) && MergeStage(m, x, s).Some? && s.key.full != s.key.alias
    requires from in x && (from == s.key.full || (from == s.key.alias && s.key.full !in x))
    ensures var (r, at) := (MergeStage(m, x, s).value,
        if s.key.alias in m then s.key.alias else if s.key.full in m then s.key.full else from);
      && (forall k :: k != at ==> (k in r <==> k in m) && (k in m ==> r[k] == m[k])) && at in r
      && (s.Single? ==> MergeProvider(if at in m then m[at] else Obj(map[]), x[from], s.inner) == Some(r[at]))
      && (s.Many? && at !in m ==> r[at] == Arr([]))
      && (s.Many? && at in m && m[at].Arr? && x[from].Arr? ==>
            && r[at].Arr? && |r[at].items| == |m[at].items|
            && (forall k :: 0 <= k < |x[from].items| ==> x[from].items[k].Obj?)
            && forall i :: 0 <= i < |r[at].items| ==>
                 Gets(m[at].items, x[from].items, s.inner, i, |x[from].items|) == Some(r[at].items[i]))
  {
    hide MergeProvider, MergeList, Gets;
    var at := Target(m, s.key, from);
    if s.Many? {
      var entries := Entries(x[from]).value;
      if at !in m {
        EmptyStays(entries, s.inner, |entries|);
      } else if m[at].Arr? && x[from].Arr? {
        AllObjects(m[at].items, entries, s.inner, |entries|);
        forall i | 0 <= i < |m[at].items|
          ensures Gets(m[at].items, entries, s.inner, i, |entries|)
               == Some(MergeList(m[at].items, entries, s.inner, |entries|).value[i])
        {
          EachGetsItsOwn(m[at].items, entries, s.inner, i, |entries|);
        }
      }
    }
  }

  lemma EmptyStays(entries: seq<Json>, inner: seq<Stage>, n: nat)
    requires n <= |entries| && MergeList([], entries, inner, n).Some?
    ensures MergeList([], entries, inner, n).value == []
  {}
}
