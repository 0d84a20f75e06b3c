/** Splitting a profile into configuration and secrets, and merging them again
    (python-deprecated/utils/profile_crypto.py). */
module ProfileSecrets {
  import opened Basics
  import opened Wrappers

  /** A JSON value; only the truth of a number matters, so numbers are integers. */
  datatype Json =
    | Null
    | Bool(b: bool)
    | Num(n: int)
    | Str(s: string)
    | Arr(items: seq<Json>)
    | Obj(fields: Dict)

  type Dict = map<string, Json>

  predicate IsTrue(j: Json) {
    match j
    case Null => false
    case Bool(b) => b
    case Num(n) => n != 0
    case Str(s) => s != ""
    case Arr(items) => items != []
    case Obj(fields) => fields != map[]
  }

  predicate Truthy(m: Dict, k: string) { k in m && IsTrue(m[k]) }

  /** A name and its alias. */
  datatype Pair = Pair(full: string, alias: string)

  function Both(p: Pair): set<string> { {p.full, p.alias} }

  function Names(ps: seq<Pair>): set<string> {
    if ps == [] then {} else Both(ps[0]) + Names(ps[1..])
  }

  predicate Distinct(ps: seq<Pair>) {
    ps == [] || (ps[0].full != ps[0].alias && Both(ps[0]) !! Names(ps[1..]) && Distinct(ps[1..]))
  }

  function Restrict(m: Dict, ks: set<string>): Dict { map k | k in m && k in ks :: m[k] }

  // ---------------------------------------------------------------- extraction

  /** What is left, and what was taken out. */
  datatype Parts = Parts(clean: Dict, secrets: Dict)

  /** The one of the two names whose value is taken. */
  function PickOf(m: Dict, p: Pair): set<string> {
    if Truthy(m, p.full) then {p.full} else if Truthy(m, p.alias) then {p.alias} else {}
  }

  function Picked(m: Dict, ps: seq<Pair>): (r: set<string>)
    ensures r <= Names(ps) && r <= m.Keys
  {
    if ps == [] then {} else PickOf(m, ps[0]) + Picked(m, ps[1..])
  }

  function TakeFields(m: Dict, ps: seq<Pair>): Parts {
    Parts(m - Picked(m, ps), Restrict(m, Picked(m, ps)))
  }

  /** Of each pair the value under the full name is taken, and only without that the one under the alias; and nothing
      else. */
  lemma {:induction false} TakesFirst(m: Dict, ps: seq<Pair>, p: Pair)
    requires Distinct(ps) && p in ps
    ensures var t := TakeFields(m, ps);
      && (p.full in t.secrets <==> Truthy(m, p.full))
      && (p.alias in t.secrets <==> Truthy(m, p.alias) && !Truthy(m, p.full))
      && (forall k :: k in t.secrets ==> k in Names(ps) && k in m && t.secrets[k] == m[k] && k !in t.clean)
      && (forall k :: k in m && k !in t.secrets ==> k in t.clean && t.clean[k] == m[k])
    decreases ps
  {
    PickedIff(m, ps, p);
    hide Picked, Names;
  }

  lemma {:induction false} PickedIff(m: Dict, ps: seq<Pair>, p: Pair)
    requires Distinct(ps) && p in ps
    ensures p.full in Picked(m, ps) <==> Truthy(m, p.full)
    ensures p.alias in Picked(m, ps) <==> Truthy(m, p.alias) && !Truthy(m, p.full)
    decreases ps
  {
    hide Truthy;
    if p == ps[0] {
      assert p.full in Both(p) && p.alias in Both(p);
    } else {
      PickedIff(m, ps[1..], p);
      InNames(ps[1..], p);
      assert p.full !in Both(ps[0]) && p.alias !in Both(ps[0]);
    }
  }

  lemma {:induction false} InNames(ps: seq<Pair>, p: Pair)
    requires p in ps
    ensures p.full in Names(ps) && p.alias in Names(ps)
    decreases ps
  {
    if p != ps[0] { InNames(ps[1..], p); }
  }

  /** Looking for the names in a value that is no dictionary raises a TypeError, unless it is a text
      or a list without any of them. */
  predicate Raises(j: Json, ps: seq<Pair>) { RaisesOn(j, Names(ps)) }

  predicate RaisesOn(j: Json, names: set<string>) {
    match j
    case Obj(_) => false
    case Str(s) => exists n :: n in names && Contains(s, n)
    case Arr(items) => exists n :: n in names && Str(n) in items
    case _ => true
  }

  /** One step of the extraction: credentials of a provider; a downloader nested in a provider; an
      external service; the single provider; the list of providers. */
  datatype Stage =
    | Fields(ps: seq<Pair>)
    | Nested(key: Pair, ps: seq<Pair>)
    | External(key: Pair, ps: seq<Pair>)
    | Single(key: Pair, inner: seq<Stage>)
    | Many(key: Pair, inner: seq<Stage>)

  function Keys(s: Stage): set<string> {
    match s
    case Fields(ps) => Names(ps)
    case _ => Both(s.key)
  }

  function AllKeys(stages: seq<Stage>): set<string> {
    if stages == [] then {} else Keys(stages[0]) + AllKeys(stages[1..])
  }

  const INDEX := "_index"

  predicate WellFormed(s: Stage)
    decreases s, 0
  {
    match s
    case Fields(ps) => Distinct(ps)
    case Nested(key, ps) => key.full != key.alias && Distinct(ps)
    case External(key, ps) => key.full != key.alias && Distinct(ps)
    case Single(key, inner) => key.full != key.alias && WellFormedAll(inner)
    case Many(key, inner) => key.full != key.alias && WellFormedAll(inner) && INDEX !in AllKeys(inner)
  }

  /** No two steps share a key. */
  predicate WellFormedAll(stages: seq<Stage>)
    decreases stages, 0
  {
    stages == [] ||
    (WellFormed(stages[0]) && Keys(stages[0]) !! AllKeys(stages[1..]) && WellFormedAll(stages[1..]))
  }

  /** The key under which a nested configuration is looked for. */
  function Active(m: Dict, key: Pair): Option<string> {
    if key.full in m then Some(key.full) else if key.alias in m then Some(key.alias) else None
  }

  predicate NonEmptyObj(j: Json) { j.Obj? && IsTrue(j) }

  /** The first of the two keys that holds a non-empty dictionary. */
  function ActiveSingle(m: Dict, key: Pair): Option<string> {
    if key.full in m && NonEmptyObj(m[key.full]) then Some(key.full)
    else if key.alias in m && NonEmptyObj(m[key.alias]) then Some(key.alias)
    else None
  }

  /** The first of the two keys that holds a list. */
  function ActiveMany(m: Dict, key: Pair): Option<string> {
    if key.full in m && m[key.full].Arr? then Some(key.full)
    else if key.alias in m && m[key.alias].Arr? then Some(key.alias)
    else None
  }

  /** `parts` of the dictionary under `k` become parts of the dictionary around it. */
  function Lift(m: Dict, k: string, parts: Parts): Parts {
    if parts.secrets == map[] then Parts(m, map[])
    else Parts(m[k := Obj(parts.clean)], map[k := Obj(parts.secrets)])
  }

  /** One step of `extract_secrets`; None if it raises. */
  function ExtractStage(m: Dict, s: Stage): Option<Parts>
    decreases s, 0
  {
    match s
    case Fields(ps) => Some(TakeFields(m, ps))
    case Nested(key, ps) => ExtractNested(m, key, ps)
    case External(key, ps) => ExtractNested(m, key, ps)
    case Single(key, inner) => (
      match ActiveSingle(m, key)
      case None => Some(Parts(m, map[]))
      case Some(k) =>
        match ExtractAll(m[k].fields, inner)
        case None => None
        case Some(parts) => Some(Lift(m, k, parts)))
    case Many(key, inner) =>
      match ActiveMany(m, key)
      case None => Some(Parts(m, map[]))
      case Some(k) =>
        match ExtractList(m[k].items, inner, |m[k].items|)
        case None => None
        case Some(lists) =>
          Some(Parts(m[k := Arr(lists.clean)], if lists.secrets == [] then map[] else map[k := Arr(lists.secrets)]))
  }

  function ExtractNested(m: Dict, key: Pair, ps: seq<Pair>): Option<Parts> {
    match Active(m, key)
    case None => Some(Parts(m, map[]))
    case Some(k) =>
      if !IsTrue(m[k]) then Some(Parts(m, map[]))
      else if Raises(m[k], ps) then None
      else if !m[k].Obj? then Some(Parts(m, map[]))
      else Some(Lift(m, k, TakeFields(m[k].fields, ps)))
  }

  function ExtractAll(m: Dict, stages: seq<Stage>): Option<Parts>
    decreases stages, 1
  {
    if stages == [] then Some(Parts(m, map[]))
    else match ExtractStage(m, stages[0])
      case None => None
      case Some(first) =>
        match ExtractAll(first.clean, stages[1..])
        case None => None
        case Some(rest) => Some(Parts(rest.clean, first.secrets + rest.secrets))
  }

  datatype Lists = Lists(clean: seq<Json>, secrets: seq<Json>)

  /** The first `n` providers of a list cleaned, and their secrets; values that are no dictionaries
      are passed over. */
  function ExtractList(items: seq<Json>, inner: seq<Stage>, n: nat): (r: Option<Lists>)
    requires n <= |items|
    ensures r.Some? ==> |r.value.clean| == |items| && forall i :: n <= i < |items| ==> r.value.clean[i] == items[i]
    decreases inner, 2, n
  {
    if n == 0 then Some(Lists(items, []))
    else match ExtractList(items, inner, n - 1)
      case None => None
      case Some(before) =>
        if !items[n - 1].Obj? then Some(before)
        else match ExtractAll(items[n - 1].fields, inner)
          case None => None
          case Some(parts) =>
            Some(Lists(before.clean[n - 1 := Obj(parts.clean)],
                       if parts.secrets == map[] then before.secrets
                       else before.secrets + [Obj(parts.secrets[INDEX := Num(n - 1)])]))
  }

  // ---------------------------------------------------------------- merging

  /** The key that is written to. */
  function Target(m: Dict, key: Pair, created: string): string {
    if key.alias in m then key.alias else if key.full in m then key.full else created
  }

  /** The fields of `secrets[from]` go into the dictionary at the target; None if there are any and it is no
      dictionary, or if they cannot be read. */
  function MergeInto(m: Dict, secrets: Dict, key: Pair, from: string, ps: seq<Pair>, created: string): Option<Dict> {
    if from !in secrets then Some(m)
    else
      var at := Target(m, key, created);
      var base := if at in m then m[at] else Obj(map[]);
      if Raises(secrets[from], ps) then None
      else
        var add := Added(secrets[from], ps);
        if base.Obj? then Some(m[at := Obj(base.fields + add)])
        else if add == map[] then Some(m)
        else None
  }

  function Added(secret: Json, ps: seq<Pair>): Dict {
    if secret.Obj? then Restrict(secret.fields, Names(ps)) else map[]
  }

  function First(secrets: Dict, key: Pair): Option<string> {
    if key.full in secrets then Some(key.full) else if key.alias in secrets then Some(key.alias) else None
  }

  /** One step of `merge_secrets`; None if it raises. */
  function MergeStage(m: Dict, secrets: Dict, s: Stage): Option<Dict>
    decreases s, 0
  {
    match s
    case Fields(ps) => Some(m + Restrict(secrets, Names(ps)))
    case Nested(key, ps) => (
      match MergeInto(m, secrets, key, key.full, ps, key.full)
      case None => None
      case Some(m') => MergeInto(m', secrets, key, key.alias, ps, key.full))
    case External(key, ps) => (
      match First(secrets, key)
      case None => Some(m)
      case Some(from) => MergeInto(m, secrets, key, from, ps, from))
    case Single(key, inner) => (
      match First(secrets, key)
      case None => Some(m)
      case Some(from) =>
        var at := Target(m, key, from);
        match MergeProvider(if at in m then m[at] else Obj(map[]), secrets[from], inner)
        case None => None
        case Some(p) => Some(m[at := p]))
    case Many(key, inner) =>
      match First(secrets, key)
      case None => Some(m)
      case Some(from) =>
        var at := Target(m, key, from);
        var base := if at in m then m[at] else Arr([]);
        match Entries(secrets[from])
        case None => None
        case Some(entries) =>
          if !base.Arr? then
            if forall i :: 0 <= i < |entries| ==> PassedOver(base, entries[i], inner) then Some(m) else None
          else match MergeList(base.items, entries, inner, |entries|)
            case None => None
            case Some(items) => Some(m[at := Arr(items)])
  }

  /** What a loop over the secrets runs through; the characters of a text and the keys of a dictionary are no
      dictionaries themselves. */
  function Entries(secrets: Json): Option<seq<Json>> {
    match secrets
    case Arr(items) => Some(items)
    case Str(s) => if s == "" then Some([]) else None
    case Obj(fields) => if fields == map[] then Some([]) else None
    case _ => None
  }

  /** An entry is not for any place of a text or a dictionary, or has nothing for the character of the
      text at its place. */
  predicate PassedOver(base: Json, entry: Json, inner: seq<Stage>)
    decreases inner, 3
  {
    && IndexOf(entry).Some?
    && var index := IndexOf(entry).value;
      match base
      case Obj(fields) => index >= |fields|
      case Str(s) =>
        var at := if index < 0 then index + |s| else index;
        at >= |s| || (at >= 0 && MergeProvider(Str([s[at]]), entry, inner).Some?)
      case _ => false
  }

  function MergeProvider(p: Json, secrets: Json, inner: seq<Stage>): Option<Json>
    decreases inner, 2
  {
    if !p.Obj? || !secrets.Obj? then if Inert(p, secrets, inner) then Some(p) else None
    else match MergeAll(p.fields, secrets.fields, inner)
      case None => None
      case Some(m) => Some(Obj(m))
  }

  /** The secrets have nothing for a provider, one of the two being no dictionary. */
  predicate Inert(p: Json, secrets: Json, inner: seq<Stage>) {
    if secrets.Obj? then forall i :: 0 <= i < |inner| ==> InertStage(p, secrets.fields, inner[i])
    else !RaisesOn(secrets, AllKeys(inner))
  }

  predicate InertStage(p: Json, secrets: Dict, s: Stage) {
    match s
    case Nested(key, ps) => InertNested(p, secrets, key, key.full, ps) && InertNested(p, secrets, key, key.alias, ps)
    case _ => Keys(s) !! secrets.Keys
  }

  /** A downloader named in a text or a list, and none of its credentials. */
  predicate InertNested(p: Json, secrets: Dict, key: Pair, from: string, ps: seq<Pair>) {
    from in secrets ==>
      && ((p.Str? && (Contains(p.s, key.full) || Contains(p.s, key.alias)))
          || (p.Arr? && (Str(key.full) in p.items || Str(key.alias) in p.items)))
      && !Raises(secrets[from], ps) && Added(secrets[from], ps) == map[]
  }

  function MergeAll(m: Dict, secrets: Dict, stages: seq<Stage>): Option<Dict>
    decreases stages, 1
  {
    if stages == [] then Some(m)
    else match MergeStage(m, secrets, stages[0])
      case None => None
      case Some(m') => MergeAll(m', secrets, stages[1..])
  }

  /** Index of the provider the secrets belong to. */
  function IndexOf(secrets: Json): Option<int> {
    if !secrets.Obj? then None
    else if INDEX !in secrets.fields then Some(0)
    else match secrets.fields[INDEX]
      case Num(n) => Some(n)
      case Bool(b) => Some(if b then 1 else 0)
      case _ => None
  }

  /** The first `n` entries of the secrets merged into the list. */
  function MergeList(items: seq<Json>, secrets: seq<Json>, inner: seq<Stage>, n: nat): (r: Option<seq<Json>>)
    requires n <= |secrets|
    ensures r.Some? ==> |r.value| == |items|
    decreases inner, 3, n
  {
    if n == 0 then Some(items)
    else match MergeList(items, secrets, inner, n - 1)
      case None => None
      case Some(before) =>
        var index := IndexOf(secrets[n - 1]);
        if index.None? then None
        else if index.value >= |items| then Some(before)
        else
          var at := if index.value < 0 then index.value + |items| else index.value;
          if at < 0 then None
          else match MergeProvider(before[at], secrets[n - 1], inner)
            case None => None
            case Some(p) => Some(before[at := p])
  }

  /** What a merge into a nested configuration does, whatever the secrets are: under the alias if that is there, else under
      the full name, else under a new key, every listed credential that the secrets have gets their value, any old
      one notwithstanding; all else stays. */
  lemma MergeSets(m: Dict, secrets: Dict, key: Pair, from: string, ps: seq<Pair>, created: string)
    requires from in secrets && MergeInto(m, secrets, key, from, ps, created).Some?
    ensures var r := MergeInto(m, secrets, key, from, ps, created).value;
      var at := if key.alias in m then key.alias else if key.full in m then key.full else created;
      var given: Dict := if secrets[from].Obj? then secrets[from].fields else map[];
      && at in r && (forall k :: k != at ==> (k in r <==> k in m) && (k in m ==> r[k] == m[k]))
      && (forall n :: n in Names(ps) && n in given ==> r[at].Obj? && n in r[at].fields && r[at].fields[n] == given[n])
      && (forall n :: n !in Names(ps) || n !in given ==>
            var was: Dict := if at in m && m[at].Obj? then m[at].fields else map[];
            r[at].Obj? ==> (n in r[at].fields <==> n in was) && (n in was ==> r[at].fields[n] == was[n]))
      && (at in m && !m[at].Obj? ==> r == m)
  {
    hide Names, Raises;
    var at := Target(m, key, created);
    var add := Added(secrets[from], ps);
    if secrets[from].Obj? {
      assert forall n :: n in Names(ps) && n in secrets[from].fields ==> n in add;
    }
  }

  /** And of the credentials of a provider itself. */
  lemma MergeSetsFields(m: Dict, secrets: Dict, ps: seq<Pair>)
    ensures MergeStage(m, secrets, Fields(ps)).Some?
    ensures var r := MergeStage(m, secrets, Fields(ps)).value;
      forall n ::
        if n in Names(ps) && n in secrets then n in r && r[n] == secrets[n]
        else (n in r <==> n in m) && (n in m ==> r[n] == m[n])
  {
    hide Names;
  }

  // ---------------------------------------------------------------- each step keeps to its own keys

  ghost predicate Agree(m: Dict, m': Dict, ks: set<string>) {
    forall k :: k in ks ==> (k in m <==> k in m') && (k in m ==> m[k] == m'[k])
  }

  /** Nothing but `ks` differs. */
  ghost predicate Within(m: Dict, m': Dict, ks: set<string>) {
    forall k :: k !in ks ==> (k in m <==> k in m') && (k in m ==> m[k] == m'[k])
  }

  lemma Same(m: Dict, m': Dict, ks: set<string>)
    requires Agree(m, m', ks) && Within(m, m', ks)
    ensures m == m'
  {}

  lemma {:induction false} PickedLocal(m: Dict, m': Dict, ps: seq<Pair>)
    requires Agree(m, m', Names(ps))
    ensures Picked(m, ps) == Picked(m', ps)
    decreases ps
  {
    if ps != [] {
      assert ps[0].full in Names(ps) && ps[0].alias in Names(ps);
      PickedLocal(m, m', ps[1..]);
    }
  }

  lemma ExtractFrame(m: Dict, s: Stage)
    requires ExtractStage(m, s).Some?
    ensures var p := ExtractStage(m, s).value; Within(m, p.clean, Keys(s)) && p.secrets.Keys <= Keys(s)
  {
    hide ExtractAll, ExtractList, ExtractNested, Picked, Names, IsTrue, Raises;
    if s.Nested? || s.External? { NestedFrame(m, s.key, s.ps); }
  }

  lemma NestedFrame(m: Dict, key: Pair, ps: seq<Pair>)
    requires ExtractNested(m, key, ps).Some?
    ensures var p := ExtractNested(m, key, ps).value; Within(m, p.clean, Both(key)) && p.secrets.Keys <= Both(key)
  {
    hide TakeFields, IsTrue, Raises;
  }

  lemma ExtractNestedLocal(m: Dict, m': Dict, key: Pair, ps: seq<Pair>)
    requires Agree(m, m', Both(key))
    ensures ExtractNested(m, key, ps).Some? == ExtractNested(m', key, ps).Some?
    ensures ExtractNested(m, key, ps).Some? ==>
      (var p, p' := ExtractNested(m, key, ps).value, ExtractNested(m', key, ps).value;
       p.secrets == p'.secrets && Agree(p.clean, p'.clean, Both(key)))
  {
    hide Raises, IsTrue, TakeFields;
    assert key.full in Both(key) && key.alias in Both(key);
  }

  lemma ExtractProvidersLocal(m: Dict, m': Dict, s: Stage)
    requires (s.Single? || s.Many?) && Agree(m, m', Keys(s))
    ensures ExtractStage(m, s).Some? == ExtractStage(m', s).Some?
    ensures ExtractStage(m, s).Some? ==>
      (var p, p' := ExtractStage(m, s).value, ExtractStage(m', s).value;
       p.secrets == p'.secrets && Agree(p.clean, p'.clean, Keys(s)))
  {
    hide ExtractAll, ExtractList, IsTrue;
    assert s.key.full in Keys(s) && s.key.alias in Keys(s);
  }

  /** Extraction looks at no other key. */
  lemma ExtractLocal(m: Dict, m': Dict, s: Stage)
    requires Agree(m, m', Keys(s))
    ensures ExtractStage(m, s).Some? == ExtractStage(m', s).Some?
    ensures ExtractStage(m, s).Some? ==>
      (var p, p' := ExtractStage(m, s).value, ExtractStage(m', s).value;
       p.secrets == p'.secrets && Agree(p.clean, p'.clean, Keys(s)))
  {
    hide ExtractAll, ExtractList, Picked, Names, ExtractNested;
    match s
    case Fields(ps) => PickedLocal(m, m', ps);
    case Nested(key, ps) => ExtractNestedLocal(m, m', key, ps);
    case External(key, ps) => ExtractNestedLocal(m, m', key, ps);
    case _ =>
      hide *;
      ExtractProvidersLocal(m, m', s);
  }

  lemma MergeIntoFrame(m: Dict, x: Dict, key: Pair, from: string, ps: seq<Pair>, created: string)
    requires from in Both(key) && created in Both(key) && MergeInto(m, x, key, from, ps, created).Some?
    ensures Within(m, MergeInto(m, x, key, from, ps, created).value, Both(key))
  {}

  lemma MergeIntoLocal(m: Dict, x: Dict, m': Dict, x': Dict, key: Pair, from: string, ps: seq<Pair>, created: string)
    requires from in Both(key) && created in Both(key) && Agree(m, m', Both(key)) && Agree(x, x', Both(key))
    ensures var r, r' := MergeInto(m, x, key, from, ps, created), MergeInto(m', x', key, from, ps, created);
      r.Some? == r'.Some? && (r.Some? ==> Agree(r.value, r'.value, Both(key)))
  {
    assert key.full in Both(key) && key.alias in Both(key);
  }

  lemma MergeFrame(m: Dict, x: Dict, s: Stage)
    requires MergeStage(m, x, s).Some?
    ensures Within(m, MergeStage(m, x, s).value, Keys(s))
  {
    hide MergeProvider, MergeList, Names, MergeInto;
    match s
    case Nested(key, ps) =>
      MergeIntoFrame(m, x, key, key.full, ps, key.full);
      var m' := MergeInto(m, x, key, key.full, ps, key.full).value;
      MergeIntoFrame(m', x, key, key.alias, ps, key.full);
    case External(key, ps) =>
      var from := First(x, key);
      if from.Some? { MergeIntoFrame(m, x, key, from.value, ps, from.value); }
    case _ =>
  }

  lemma MergeNestedLocal(m: Dict, x: Dict, m': Dict, x': Dict, s: Stage)
    requires s.Nested? || s.External?
    requires Agree(m, m', Keys(s)) && Agree(x, x', Keys(s))
    ensures MergeStage(m, x, s).Some? == MergeStage(m', x', s).Some?
    ensures MergeStage(m, x, s).Some? ==> Agree(MergeStage(m, x, s).value, MergeStage(m', x', s).value, Keys(s))
  {
    hide Names, MergeInto;
    if s.Nested? {
      MergeIntoLocal(m, x, m', x', s.key, s.key.full, s.ps, s.key.full);
      var (r, r') := (MergeInto(m, x, s.key, s.key.full, s.ps, s.key.full),
                      MergeInto(m', x', s.key, s.key.full, s.ps, s.key.full));
      if r.Some? { MergeIntoLocal(r.value, x, r'.value, x', s.key, s.key.alias, s.ps, s.key.full); }
    } else {
      assert s.key.full in Both(s.key) && s.key.alias in Both(s.key);
      var from := First(x, s.key);
      if from.Some? { MergeIntoLocal(m, x, m', x', s.key, from.value, s.ps, from.value); }
    }
  }

  lemma SameTarget(m: Dict, x: Dict, m': Dict, x': Dict, key: Pair)
    requires Agree(m, m', Both(key)) && Agree(x, x', Both(key))
    ensures First(x, key) == First(x', key)
    ensures var from := First(x, key);
      from.Some? ==> (
        && x[from.value] == x'[from.value] && from.value in Both(key)
        && Target(m, key, from.value) == Target(m', key, from.value)
        && Target(m, key, from.value) in Both(key))
  {
    assert key.full in Both(key) && key.alias in Both(key);
  }

  lemma Put(m: Dict, m': Dict, ks: set<string>, k: string, j: Json)
    requires Agree(m, m', ks)
    ensures Agree(m[k := j], m'[k := j], ks)
  {}

  lemma MergeProvidersLocal(m: Dict, x: Dict, m': Dict, x': Dict, s: Stage)
    requires s.Single? || s.Many?
    requires Agree(m, m', Keys(s)) && Agree(x, x', Keys(s))
    ensures MergeStage(m, x, s).Some? == MergeStage(m', x', s).Some?
    ensures MergeStage(m, x, s).Some? ==> Agree(MergeStage(m, x, s).value, MergeStage(m', x', s).value, Keys(s))
  {
    SameTarget(m, x, m', x', s.key);
    var from := First(x, s.key);
    if from.Some? {
      var at := Target(m, s.key, from.value);
      assert (at in m <==> at in m') && (at in m ==> m[at] == m'[at]);
      hide First, Target, MergeProvider, MergeList, Agree;
      var r := MergeStage(m, x, s);
      if r.Some? {
        assert at in r.value;
        assert r.value == m[at := r.value[at]] && MergeStage(m', x', s).value == m'[at := r.value[at]];
        Put(m, m', Keys(s), at, r.value[at]);
      }
    }
  }

  /** Merging looks at no other key, of the configuration and of the secrets. */
  lemma MergeLocal(m: Dict, x: Dict, m': Dict, x': Dict, s: Stage)
    requires Agree(m, m', Keys(s)) && Agree(x, x', Keys(s))
    ensures MergeStage(m, x, s).Some? == MergeStage(m', x', s).Some?
    ensures MergeStage(m, x, s).Some? ==> Agree(MergeStage(m, x, s).value, MergeStage(m', x', s).value, Keys(s))
  {
    match s
    case Fields(ps) =>
      hide MergeProvider, MergeList, Names, MergeInto;
    case Nested(_, _) =>
      hide *;
      MergeNestedLocal(m, x, m', x', s);
    case External(_, _) =>
      hide *;
      MergeNestedLocal(m, x, m', x', s);
    case _ =>
      hide *;
      MergeProvidersLocal(m, x, m', x', s);
  }

  // ---------------------------------------------------------------- steps in sequence

  lemma {:induction false} KeysIn(stages: seq<Stage>, s: Stage)
    requires s in stages
    ensures Keys(s) <= AllKeys(stages)
    decreases stages
  {
    if s != stages[0] { KeysIn(stages[1..], s); }
  }

  lemma {:induction false} WellFormedIn(stages: seq<Stage>, s: Stage)
    requires WellFormedAll(stages) && s in stages
    ensures WellFormed(s)
    decreases stages
  {
    if s != stages[0] { WellFormedIn(stages[1..], s); }
  }

  lemma {:induction false} ExtractAllFrame(m: Dict, stages: seq<Stage>)
    requires ExtractAll(m, stages).Some?
    ensures var p := ExtractAll(m, stages).value; Within(m, p.clean, AllKeys(stages)) && p.secrets.Keys <= AllKeys(stages)
    decreases stages
  {
    hide ExtractStage, Keys;
    if stages != [] {
      ExtractFrame(m, stages[0]);
      ExtractAllFrame(ExtractStage(m, stages[0]).value.clean, stages[1..]);
    }
  }

  /** On the keys of a step, the whole extraction does what that step does alone. */
  lemma {:induction false} ExtractAllAt(m: Dict, stages: seq<Stage>, s: Stage)
    requires WellFormedAll(stages) && s in stages && ExtractAll(m, stages).Some?
    ensures ExtractStage(m, s).Some?
    ensures var (p, q) := (ExtractAll(m, stages).value, ExtractStage(m, s).value);
      Agree(p.clean, q.clean, Keys(s)) && Agree(p.secrets, q.secrets, Keys(s))
    decreases stages
  {
    hide ExtractStage, Keys, WellFormed;
    var first := ExtractStage(m, stages[0]).value;
    ExtractFrame(m, stages[0]);
    ExtractAllFrame(first.clean, stages[1..]);
    if s != stages[0] {
      KeysIn(stages[1..], s);
      ExtractAllAt(first.clean, stages[1..], s);
      ExtractLocal(first.clean, m, s);
    }
  }

  lemma {:induction false} ExtractAllSucceeds(m: Dict, stages: seq<Stage>)
    requires WellFormedAll(stages) && forall s :: s in stages ==> ExtractStage(m, s).Some?
    ensures ExtractAll(m, stages).Some?
    decreases stages
  {
    hide ExtractStage, Keys, WellFormed;
    if stages != [] {
      var first := ExtractStage(m, stages[0]).value;
      ExtractFrame(m, stages[0]);
      forall s | s in stages[1..] ensures ExtractStage(first.clean, s).Some? {
        KeysIn(stages[1..], s);
        ExtractLocal(first.clean, m, s);
      }
      ExtractAllSucceeds(first.clean, stages[1..]);
    }
  }

  lemma {:induction false} MergeAllFrame(m: Dict, x: Dict, stages: seq<Stage>)
    requires MergeAll(m, x, stages).Some?
    ensures Within(m, MergeAll(m, x, stages).value, AllKeys(stages))
    decreases stages
  {
    hide MergeStage, Keys;
    if stages != [] {
      MergeFrame(m, x, stages[0]);
      MergeAllFrame(MergeStage(m, x, stages[0]).value, x, stages[1..]);
    }
  }

  lemma {:induction false} MergeAllAt(m: Dict, x: Dict, stages: seq<Stage>, s: Stage)
    requires WellFormedAll(stages) && s in stages && MergeAll(m, x, stages).Some?
    ensures MergeStage(m, x, s).Some? && Agree(MergeAll(m, x, stages).value, MergeStage(m, x, s).value, Keys(s))
    decreases stages
  {
    hide MergeStage, Keys, WellFormed;
    var first := MergeStage(m, x, stages[0]).value;
    MergeFrame(m, x, stages[0]);
    MergeAllFrame(first, x, stages[1..]);
    if s != stages[0] {
      KeysIn(stages[1..], s);
      MergeAllAt(first, x, stages[1..], s);
      MergeLocal(first, x, m, x, s);
    }
  }

  lemma {:induction false} MergeAllSucceeds(m: Dict, x: Dict, stages: seq<Stage>)
    requires WellFormedAll(stages) && forall s :: s in stages ==> MergeStage(m, x, s).Some?
    ensures MergeAll(m, x, stages).Some?
    decreases stages
  {
    hide MergeStage, Keys, WellFormed;
    if stages != [] {
      var first := MergeStage(m, x, stages[0]).value;
      MergeFrame(m, x, stages[0]);
      forall s | s in stages[1..] ensures MergeStage(first, x, s).Some? {
        KeysIn(stages[1..], s);
        MergeLocal(first, x, m, x, s);
      }
      MergeAllSucceeds(first, x, stages[1..]);
    }
  }

  /** Keys that belong to no step are ignored. */
  lemma {:induction false} MergeAllLocal(m: Dict, x: Dict, m': Dict, x': Dict, stages: seq<Stage>)
    requires WellFormedAll(stages) && Agree(m, m', AllKeys(stages)) && Agree(x, x', AllKeys(stages))
    ensures MergeAll(m, x, stages).Some? == MergeAll(m', x', stages).Some?
    ensures MergeAll(m, x, stages).Some? ==>
      Agree(MergeAll(m, x, stages).value, MergeAll(m', x', stages).value, AllKeys(stages))
    decreases stages
  {
    hide MergeStage, Keys, WellFormed;
    if stages != [] {
      MergeLocal(m, x, m', x', stages[0]);
      var (r, r') := (MergeStage(m, x, stages[0]), MergeStage(m', x', stages[0]));
      if r.Some? {
        MergeFrame(m, x, stages[0]);
        MergeFrame(m', x', stages[0]);
        MergeAllLocal(r.value, x, r'.value, x', stages[1..]);
        if MergeAll(r.value, x, stages[1..]).Some? {
          MergeAllFrame(r.value, x, stages[1..]);
          MergeAllFrame(r'.value, x', stages[1..]);
        }
      }
    }
  }

  lemma SecretsLocal(m: Dict, x: Dict, x': Dict, stages: seq<Stage>)
    requires WellFormedAll(stages) && Agree(x, x', AllKeys(stages))
    ensures MergeAll(m, x, stages) == MergeAll(m, x', stages)
  {
    hide MergeAll, WellFormedAll;
    MergeAllLocal(m, x, m, x', stages);
    if MergeAll(m, x, stages).Some? {
      MergeAllFrame(m, x, stages);
      MergeAllFrame(m, x', stages);
      Same(MergeAll(m, x, stages).value, MergeAll(m, x', stages).value, AllKeys(stages));
    }
  }

  // ---------------------------------------------------------------- when merging undoes extraction

  /** One of the listed credentials is set. */
  ghost predicate Holds(m: Dict, ps: seq<Pair>) {
    exists p :: p in ps && (Truthy(m, p.full) || Truthy(m, p.alias))
  }

  /** The step takes something out. */
  ghost predicate Yields(m: Dict, s: Stage)
    decreases s, 0
  {
    match s
    case Fields(ps) => Holds(m, ps)
    case Nested(key, ps) => YieldsNested(m, key, ps)
    case External(key, ps) => YieldsNested(m, key, ps)
    case Single(key, inner) => var k := ActiveSingle(m, key); k.Some? && YieldsAny(m[k.value].fields, inner)
    case Many(key, inner) =>
      var k := ActiveMany(m, key);
      k.Some? && exists i :: 0 <= i < |m[k.value].items| && YieldsAt(m[k.value].items[i], inner)
  }

  ghost predicate YieldsNested(m: Dict, key: Pair, ps: seq<Pair>) {
    var k := Active(m, key);
    k.Some? && m[k.value].Obj? && Holds(m[k.value].fields, ps)
  }

  ghost predicate YieldsAny(m: Dict, stages: seq<Stage>)
    decreases stages, 1
  {
    exists s :: s in stages && Yields(m, s)
  }

  ghost predicate YieldsAt(j: Json, inner: seq<Stage>)
    decreases inner, 2
  {
    j.Obj? && YieldsAny(j.fields, inner)
  }

  /** Secrets are taken from under the full name while the alias is in use too; merging then writes
      them under the alias. */
  ghost predicate Shadowed(m: Dict, s: Stage)
    decreases s, 0
  {
    match s
    case Fields(_) => false
    case Nested(key, ps) => key.full in m && key.alias in m && YieldsNested(m, key, ps)
    case External(key, ps) => key.full in m && key.alias in m && YieldsNested(m, key, ps)
    case Single(key, inner) =>
      var k := ActiveSingle(m, key);
      k.Some? && ((k.value == key.full && key.alias in m && Yields(m, s)) || ShadowedAny(m[k.value].fields, inner))
    case Many(key, inner) =>
      var k := ActiveMany(m, key);
      k.Some? &&
      ((k.value == key.full && key.alias in m && Yields(m, s))
       || exists i :: 0 <= i < |m[k.value].items| && ShadowedAt(m[k.value].items[i], inner))
  }

  ghost predicate ShadowedAny(m: Dict, stages: seq<Stage>)
    decreases stages, 1
  {
    exists s :: s in stages && Shadowed(m, s)
  }

  ghost predicate ShadowedAt(j: Json, inner: seq<Stage>)
    decreases inner, 2
  {
    j.Obj? && ShadowedAny(j.fields, inner)
  }

  lemma {:induction false} PickedHolds(m: Dict, ps: seq<Pair>)
    ensures Picked(m, ps) != {} <==> Holds(m, ps)
    decreases ps
  {
    if ps != [] {
      PickedHolds(m, ps[1..]);
      assert Holds(m, ps) <==> Truthy(m, ps[0].full) || Truthy(m, ps[0].alias) || Holds(m, ps[1..]);
    }
  }

  lemma TakeFieldsBack(m: Dict, ps: seq<Pair>)
    ensures var p := TakeFields(m, ps);
      && p.clean + Restrict(p.secrets, Names(ps)) == m
      && (p.secrets != map[] <==> Holds(m, ps)) && (p.clean != m <==> Holds(m, ps))
  {
    PickedHolds(m, ps);
    var picked := Picked(m, ps);
    if picked != {} {
      var k :| k in picked;
      assert k in TakeFields(m, ps).secrets && k !in TakeFields(m, ps).clean && k in m;
    }
  }

  lemma NestedParts(m: Dict, key: Pair, ps: seq<Pair>)
    requires ExtractNested(m, key, ps).Some?
    ensures var p := ExtractNested(m, key, ps).value;
      if YieldsNested(m, key, ps) then
        var k, taken := Active(m, key).value, TakeFields(m[Active(m, key).value].fields, ps);
        && p.clean == m[k := Obj(taken.clean)] && p.secrets == map[k := Obj(taken.secrets)]
        && taken.clean != m[k].fields && taken.secrets != map[] && p.clean != m && p.secrets != map[]
      else p == Parts(m, map[])
  {
    hide Raises, TakeFields;
    var k := Active(m, key);
    if k.Some? && m[k.value].Obj? {
      TakeFieldsBack(m[k.value].fields, ps);
      FalseHoldsNothing(m[k.value].fields, ps);
      var taken := TakeFields(m[k.value].fields, ps);
      assert m[k.value := Obj(taken.clean)][k.value] == Obj(taken.clean);
      assert k.value in map[k.value := Obj(taken.secrets)];
    }
  }

  lemma FalseHoldsNothing(m: Dict, ps: seq<Pair>)
    ensures Holds(m, ps) ==> m != map[]
  {}

  lemma LiftChanges(m: Dict, k: string, parts: Parts)
    requires k in m && m[k].Obj? && (parts.secrets != map[] <==> parts.clean != m[k].fields)
    ensures var p := Lift(m, k, parts);
      (p.secrets != map[] <==> parts.secrets != map[]) && (p.clean != m <==> parts.secrets != map[])
  {
    assert m[k := Obj(parts.clean)][k] == Obj(parts.clean);
    assert k in map[k := Obj(parts.secrets)];
  }

  /** A step that takes nothing changes nothing; one that takes something changes its own keys. */
  lemma {:induction false} StageYields(m: Dict, s: Stage)
    requires WellFormed(s) && ExtractStage(m, s).Some?
    ensures var p := ExtractStage(m, s).value;
      (p.secrets != map[] <==> Yields(m, s)) && (p.clean != m <==> Yields(m, s))
    decreases s, 0
  {
    hide Raises, TakeFields, ExtractNested, YieldsNested, Holds;
    match s
    case Fields(ps) => TakeFieldsBack(m, ps);
    case Nested(key, ps) => NestedParts(m, key, ps);
    case External(key, ps) => NestedParts(m, key, ps);
    case Single(key, inner) =>
      var k := ActiveSingle(m, key);
      if k.Some? {
        AllYields(m[k.value].fields, inner);
        LiftChanges(m, k.value, ExtractAll(m[k.value].fields, inner).value);
      }
    case Many(key, inner) =>
      var k := ActiveMany(m, key);
      if k.Some? {
        var items := m[k.value].items;
        ListYields(items, inner, |items|);
        var lists := ExtractList(items, inner, |items|).value;
        assert lists.clean != items ==> exists i :: 0 <= i < |items| && lists.clean[i] != items[i];
        assert m[k.value := Arr(lists.clean)][k.value] == Arr(lists.clean);
        assert k.value in map[k.value := Arr(lists.secrets)];
      }
  }

  lemma {:induction false} AllYields(m: Dict, stages: seq<Stage>)
    requires WellFormedAll(stages) && ExtractAll(m, stages).Some?
    ensures var p := ExtractAll(m, stages).value;
      (p.secrets != map[] <==> YieldsAny(m, stages)) && (p.clean != m <==> YieldsAny(m, stages))
    decreases stages, 1
  {
    hide ExtractStage, Yields, WellFormed;
    var p := ExtractAll(m, stages).value;
    forall s | s in stages
      ensures ExtractStage(m, s).Some? && Within(m, ExtractStage(m, s).value.clean, Keys(s))
      ensures var q := ExtractStage(m, s).value; Agree(p.clean, q.clean, Keys(s)) && Agree(p.secrets, q.secrets, Keys(s))
      ensures var q := ExtractStage(m, s).value; (q.secrets != map[] <==> Yields(m, s)) && (q.clean != m <==> Yields(m, s))
      ensures var q := ExtractStage(m, s).value; q.secrets.Keys <= Keys(s) && Keys(s) <= AllKeys(stages)
    {
      WellFormedIn(stages, s);
      ExtractAllAt(m, stages, s);
      StageYields(m, s);
      ExtractFrame(m, s);
      KeysIn(stages, s);
    }
    ExtractAllFrame(m, stages);
    if YieldsAny(m, stages) {
      var s :| s in stages && Yields(m, s);
      var q := ExtractStage(m, s).value;
      assert exists k :: k in q.secrets;
      if p.clean == m { Same(m, q.clean, Keys(s)); }
    } else {
      NoYield(m, stages, p);
    }
  }

  lemma {:induction false} KeyOfStage(stages: seq<Stage>, k: string) returns (s: Stage)
    requires k in AllKeys(stages)
    ensures s in stages && k in Keys(s)
    decreases stages
  {
    if k in Keys(stages[0]) {
      s := stages[0];
    } else {
      s := KeyOfStage(stages[1..], k);
    }
  }

  lemma NoYield(m: Dict, stages: seq<Stage>, p: Parts)
    requires Within(m, p.clean, AllKeys(stages)) && p.secrets.Keys <= AllKeys(stages)
    requires forall s :: s in stages ==> Agree(p.clean, m, Keys(s)) && Agree(p.secrets, map[], Keys(s))
    ensures p == Parts(m, map[])
  {
    forall k | k in AllKeys(stages) ensures Agree(p.clean, m, {k}) && k !in p.secrets {
      var s := KeyOfStage(stages, k);
    }
    assert Agree(m, p.clean, AllKeys(stages)) by {
      forall k | k in AllKeys(stages) ensures (k in m <==> k in p.clean) && (k in m ==> m[k] == p.clean[k]) {
        assert k in {k};
      }
    }
    Same(m, p.clean, AllKeys(stages));
    assert p.secrets.Keys == {};
  }

  lemma {:induction false} ListYields(items: seq<Json>, inner: seq<Stage>, n: nat)
    requires WellFormedAll(inner) && n <= |items| && ExtractList(items, inner, n).Some?
    ensures var p := ExtractList(items, inner, n).value;
      && (p.secrets != [] <==> exists i :: 0 <= i < n && YieldsAt(items[i], inner))
      && (forall i :: 0 <= i < n ==> (p.clean[i] != items[i] <==> YieldsAt(items[i], inner)))
      && (forall i :: n <= i < |items| ==> p.clean[i] == items[i])
    decreases inner, 2, n
  {
    hide ExtractAll, YieldsAny;
    if n > 0 {
      ListYields(items, inner, n - 1);
      if items[n - 1].Obj? { AllYields(items[n - 1].fields, inner); }
    }
  }

  lemma {:induction false} ShadowYields(m: Dict, s: Stage)
    requires Shadowed(m, s)
    ensures Yields(m, s)
    decreases s, 0
  {
    match s
    case Single(key, inner) =>
      var k := ActiveSingle(m, key).value;
      if !YieldsAny(m[k].fields, inner) { ShadowYieldsAny(m[k].fields, inner); }
    case Many(key, inner) =>
      var items := m[ActiveMany(m, key).value].items;
      if !Yields(m, s) {
        var i :| 0 <= i < |items| && ShadowedAt(items[i], inner);
        ShadowYieldsAny(items[i].fields, inner);
        assert YieldsAt(items[i], inner);
      }
    case _ =>
  }

  lemma {:induction false} ShadowYieldsAny(m: Dict, stages: seq<Stage>)
    requires ShadowedAny(m, stages)
    ensures YieldsAny(m, stages)
    decreases stages, 1
  {
    var s :| s in stages && Shadowed(m, s);
    ShadowYields(m, s);
  }

  /** The merge of what the step extracted. */
  function StageBack(m: Dict, s: Stage): Option<Dict> {
    match ExtractStage(m, s)
    case None => None
    case Some(p) => MergeStage(p.clean, p.secrets, s)
  }

  lemma DictReads(m: Dict, ps: seq<Pair>)
    ensures !Raises(Obj(m), ps)
  {}

  lemma NestedBack(m: Dict, s: Stage)
    requires (s.Nested? || s.External?) && s.key.full != s.key.alias && ExtractStage(m, s).Some?
    ensures StageBack(m, s) == Some(m) <==> !Shadowed(m, s)
  {
    hide TakeFields, Raises, Names, Holds;
    var p := ExtractStage(m, s).value;
    NestedParts(m, s.key, s.ps);
    if YieldsNested(m, s.key, s.ps) {
      hide YieldsNested, ExtractNested;
      var k := Active(m, s.key).value;
      var taken := TakeFields(m[k].fields, s.ps);
      TakeFieldsBack(m[k].fields, s.ps);
      assert p.secrets[k] == Obj(taken.secrets);
      DictReads(taken.secrets, s.ps);
      if k == s.key.full && s.key.alias in m {
        var r := StageBack(m, s);
        assert r.Some? ==> r.value[k] == Obj(taken.clean);
      } else {
        assert Target(p.clean, s.key, k) == k;
        assert p.clean[k] == Obj(taken.clean);
        assert p.clean[k := m[k]] == m;
        assert MergeInto(p.clean, p.secrets, s.key, k, s.ps, s.key.full) == Some(m);
        assert MergeInto(p.clean, p.secrets, s.key, k, s.ps, k) == Some(m);
      }
    }
  }

  lemma MergeSingleAt(m: Dict, x: Json, s: Stage, k: string)
    requires s.Single? && s.key.full != s.key.alias && k in Both(s.key) && k in m
    requires k == s.key.full ==> s.key.alias !in m
    ensures MergeStage(m, map[k := x], s) ==
      match MergeProvider(m[k], x, s.inner)
      case None => None
      case Some(p) => Some(m[k := p])
  {
    hide MergeProvider;
  }

  lemma {:induction false} SingleBack(m: Dict, s: Stage)
    requires s.Single? && WellFormed(s) && ExtractStage(m, s).Some?
    ensures StageBack(m, s) == Some(m) <==> !Shadowed(m, s)
    decreases s, 0
  {
    hide ExtractAll, MergeAll, ShadowedAny, YieldsAny;
    var k := ActiveSingle(m, s.key);
    if k.Some? {
      var k := k.value;
      var fields := m[k].fields;
      var parts := ExtractAll(fields, s.inner).value;
      AllYields(fields, s.inner);
      AllBack(fields, s.inner);
      if parts.secrets != map[] {
        var p := ExtractStage(m, s).value;
        assert p.secrets[k] == Obj(parts.secrets) && p.clean[k] == Obj(parts.clean);
        if k == s.key.full && s.key.alias in m {
          var r := StageBack(m, s);
          assert r.Some? ==> r.value[k] == Obj(parts.clean);
        } else {
          assert p.secrets == map[k := Obj(parts.secrets)];
          MergeSingleAt(p.clean, Obj(parts.secrets), s, k);
          var back := MergeAll(parts.clean, parts.secrets, s.inner);
          assert back.Some? ==> p.clean[k := Obj(back.value)] == m[k := Obj(back.value)];
          assert back.Some? ==> StageBack(m, s) == Some(m[k := Obj(back.value)]);
          assert back.Some? ==> m[k := Obj(back.value)][k] == Obj(back.value);
          assert m[k := m[k]] == m;
        }
      } else {
        NoShadow(m, s);
      }
    }
  }

  lemma NoShadow(m: Dict, s: Stage)
    requires !Yields(m, s)
    ensures !Shadowed(m, s)
  {
    if Shadowed(m, s) { ShadowYields(m, s); }
  }

  lemma {:induction false} MergeListPrefix(items: seq<Json>, xs: seq<Json>, x: Json, inner: seq<Stage>, n: nat)
    requires n <= |xs|
    ensures MergeList(items, xs + [x], inner, n) == MergeList(items, xs, inner, n)
    decreases n
  {
    hide MergeProvider, IndexOf;
    if n > 0 { MergeListPrefix(items, xs, x, inner, n - 1); }
  }

  lemma {:induction false} ProviderBack(fields: Dict, inner: seq<Stage>, index: nat)
    requires WellFormedAll(inner) && INDEX !in AllKeys(inner) && ExtractAll(fields, inner).Some?
    ensures var parts := ExtractAll(fields, inner).value;
      var x := Obj(parts.secrets[INDEX := Num(index)]);
      && IndexOf(x) == Some(index)
      && (MergeProvider(Obj(parts.clean), x, inner) == Some(Obj(fields)) <==> !ShadowedAny(fields, inner))
      && (parts.secrets == map[] ==> parts.clean == fields && !ShadowedAny(fields, inner))
    decreases inner, 2
  {
    hide ExtractAll, MergeAll, ShadowedAny, YieldsAny, AllKeys, WellFormedAll;
    var parts := ExtractAll(fields, inner).value;
    AllYields(fields, inner);
    AllBack(fields, inner);
    if ShadowedAny(fields, inner) { ShadowYieldsAny(fields, inner); }
    SecretsLocal(parts.clean, parts.secrets, parts.secrets[INDEX := Num(index)], inner);
  }

  /** Merging one more entry into a list. */
  lemma MergeListStep(clean: seq<Json>, before: seq<Json>, x: Json, inner: seq<Stage>, index: nat)
    requires IndexOf(x) == Some(index) && index < |clean|
    ensures var r := MergeList(clean, before, inner, |before|);
      MergeList(clean, before + [x], inner, |before| + 1) ==
        if r.None? then None
        else
          var p := MergeProvider(r.value[index], x, inner);
          if p.None? then None else Some(r.value[index := p.value])
  {
    hide MergeProvider, IndexOf;
    MergeListPrefix(clean, before, x, inner, |before|);
    assert (before + [x])[|before|] == x;
  }

  /** The providers of a list so far are restored exactly if none of them is shadowed; the others are
      as they were. */
  lemma {:induction false} ListBack(items: seq<Json>, clean: seq<Json>, inner: seq<Stage>, n: nat)
    requires WellFormedAll(inner) && INDEX !in AllKeys(inner) && n <= |items| == |clean|
    requires ExtractList(items, inner, n).Some?
    requires forall i :: 0 <= i < n ==> clean[i] == ExtractList(items, inner, n).value.clean[i]
    ensures var x := ExtractList(items, inner, n).value.secrets;
      var r := MergeList(clean, x, inner, |x|);
      && (r.Some? ==> forall i :: n <= i < |items| ==> r.value[i] == clean[i])
      && ((r.Some? && forall i :: 0 <= i < n ==> r.value[i] == items[i])
          <==> forall i :: 0 <= i < n ==> !ShadowedAt(items[i], inner))
    decreases inner, 3, n
  {
    hide ExtractAll, MergeProvider, MergeList, ShadowedAny, AllKeys, WellFormedAll, IndexOf;
    if n > 0 {
      var before := ExtractList(items, inner, n - 1).value;
      ListBack(items, clean, inner, n - 1);
      if items[n - 1].Obj? {
        var fields := items[n - 1].fields;
        var parts := ExtractAll(fields, inner).value;
        ProviderBack(fields, inner, n - 1);
        if parts.secrets != map[] {
          MergeListStep(clean, before.secrets, Obj(parts.secrets[INDEX := Num(n - 1)]), inner, n - 1);
          assert clean[n - 1] == Obj(parts.clean);
        }
      }
    } else {
      MergeNothing(clean, inner);
    }
  }

  lemma MergeNothing(clean: seq<Json>, inner: seq<Stage>)
    ensures MergeList(clean, [], inner, 0) == Some(clean)
  {}

  lemma {:induction false} ManyBack(m: Dict, s: Stage)
    requires s.Many? && WellFormed(s) && ExtractStage(m, s).Some?
    ensures StageBack(m, s) == Some(m) <==> !Shadowed(m, s)
    decreases s, 0
  {
    hide ExtractList, MergeList, ShadowedAt, YieldsAt;
    var k := ActiveMany(m, s.key);
    if k.Some? {
      var k := k.value;
      var items := m[k].items;
      var lists := ExtractList(items, s.inner, |items|).value;
      StageYields(m, s);
      ListYields(items, s.inner, |items|);
      ListBack(items, lists.clean, s.inner, |items|);
      if lists.secrets == [] {
        NoShadow(m, s);
      } else {
        var p := ExtractStage(m, s).value;
        assert p.secrets[k] == Arr(lists.secrets) && p.clean[k] == Arr(lists.clean);
        if k == s.key.full && s.key.alias in m {
          var r := StageBack(m, s);
          assert r.Some? ==> r.value[k] == Arr(lists.clean);
          assert lists.clean != items;
        } else {
          assert Target(p.clean, s.key, k) == k;
          var back := MergeList(lists.clean, lists.secrets, s.inner, |lists.secrets|);
          assert back.Some? ==> p.clean[k := Arr(back.value)] == m[k := Arr(back.value)];
          assert back.Some? ==> StageBack(m, s) == Some(m[k := Arr(back.value)]);
          assert back.Some? ==> m[k := Arr(back.value)][k] == Arr(back.value);
          assert m[k := m[k]] == m;
          assert back.Some? && (forall i :: 0 <= i < |items| ==> back.value[i] == items[i]) ==> back.value == items;
        }
      }
    }
  }

  lemma {:induction false} StageBackIff(m: Dict, s: Stage)
    requires WellFormed(s) && ExtractStage(m, s).Some?
    ensures StageBack(m, s) == Some(m) <==> !Shadowed(m, s)
    decreases s, 1
  {
    match s
    case Fields(ps) => TakeFieldsBack(m, ps);
    case Nested(_, _) => NestedBack(m, s);
    case External(_, _) => NestedBack(m, s);
    case Single(_, _) => SingleBack(m, s);
    case Many(_, _) => ManyBack(m, s);
  }

  /** Merging undoes extraction exactly if nothing is shadowed. */
  lemma {:induction false} AllBack(m: Dict, stages: seq<Stage>)
    requires WellFormedAll(stages) && ExtractAll(m, stages).Some?
    ensures var p := ExtractAll(m, stages).value;
      MergeAll(p.clean, p.secrets, stages) == Some(m) <==> !ShadowedAny(m, stages)
    decreases stages, 1
  {
    hide ExtractStage, MergeStage, Shadowed, WellFormed, Keys, Agree, Within;
    var p := ExtractAll(m, stages).value;
    forall s | s in stages
      ensures ExtractStage(m, s).Some? && MergeStage(p.clean, p.secrets, s).Some? == StageBack(m, s).Some?
      ensures StageBack(m, s).Some? ==> Agree(MergeStage(p.clean, p.secrets, s).value, StageBack(m, s).value, Keys(s))
      ensures StageBack(m, s) == Some(m) <==> !Shadowed(m, s)
      ensures StageBack(m, s).Some? ==> Within(m, StageBack(m, s).value, Keys(s))
    {
      WellFormedIn(stages, s);
      ExtractAllAt(m, stages, s);
      StageBackIff(m, s);
      var q := ExtractStage(m, s).value;
      MergeLocal(p.clean, p.secrets, q.clean, q.secrets, s);
      if StageBack(m, s).Some? {
        ExtractFrame(m, s);
        MergeFrame(q.clean, q.secrets, s);
        WithinTwice(m, q.clean, StageBack(m, s).value, Keys(s));
      }
    }
    var r := MergeAll(p.clean, p.secrets, stages);
    if !ShadowedAny(m, stages) {
      forall s | s in stages ensures MergeStage(p.clean, p.secrets, s).Some? {
        assert !Shadowed(m, s);
      }
      MergeAllSucceeds(p.clean, p.secrets, stages);
    }
    if r.Some? {
      forall s | s in stages
        ensures MergeStage(p.clean, p.secrets, s).Some?
        ensures Agree(r.value, m, Keys(s)) <==> !Shadowed(m, s)
      {
        MergeAllAt(p.clean, p.secrets, stages, s);
        SameSlice(r.value, MergeStage(p.clean, p.secrets, s).value, StageBack(m, s).value, m, Keys(s));
      }
      ExtractAllFrame(m, stages);
      MergeAllFrame(p.clean, p.secrets, stages);
      WithinTwice(m, p.clean, r.value, AllKeys(stages));
      WholeIff(r.value, m, stages);
    }
  }

  lemma WithinTwice(a: Dict, b: Dict, c: Dict, ks: set<string>)
    requires Within(a, b, ks) && Within(b, c, ks)
    ensures Within(a, c, ks)
  {}

  /** `r` agrees with `m` on the keys exactly if `back`, which does with `r` and differs from `m`
      nowhere else, is `m`. */
  lemma SameSlice(r: Dict, mid: Dict, back: Dict, m: Dict, ks: set<string>)
    requires Agree(r, mid, ks) && Agree(mid, back, ks) && Within(m, back, ks)
    ensures Agree(r, m, ks) <==> back == m
  {
    if Agree(r, m, ks) {
      assert Agree(m, back, ks);
      Same(m, back, ks);
    }
  }

  lemma WholeIff(r: Dict, m: Dict, stages: seq<Stage>)
    requires Within(m, r, AllKeys(stages))
    ensures r == m <==> forall s :: s in stages ==> Agree(r, m, Keys(s))
  {
    if forall s :: s in stages ==> Agree(r, m, Keys(s)) {
      forall k | k in AllKeys(stages) ensures (k in m <==> k in r) && (k in m ==> m[k] == r[k]) {
        var s := KeyOfStage(stages, k);
      }
      Same(m, r, AllKeys(stages));
    }
  }

  // ---------------------------------------------------------------- the profile

  const PROVIDER_FIELDS := [Pair("token", "tk"), Pair("password", "pw"), Pair("email", "em")]
  const QBITTORRENT_FIELDS := [Pair("qb_username", "qus"), Pair("qb_password", "qpw")]
  const WEBDAV_FIELDS :=
    [Pair("api_key", "ak"), Pair("webdav_username", "wus"), Pair("webdav_password", "wpw")]
  const NZBGET_FIELDS :=
    [Pair("username", "un"), Pair("password", "pw"), Pair("webdav_username", "wus"), Pair("webdav_password", "wpw")]

  const QBITTORRENT := Nested(Pair("qbittorrent_config", "qbc"), QBITTORRENT_FIELDS)
  const NZBDAV := Nested(Pair("nzbdav_config", "ndc"), WEBDAV_FIELDS)
  const SABNZBD := Nested(Pair("sabnzbd_config", "sbc"), WEBDAV_FIELDS)
  const NZBGET := Nested(Pair("nzbget_config", "ngc"), NZBGET_FIELDS)

  const PROVIDER := [Fields(PROVIDER_FIELDS), QBITTORRENT, NZBDAV, SABNZBD, NZBGET]

  const PROVIDERS := Many(Pair("streaming_providers", "sps"), PROVIDER)
  const LEGACY := Single(Pair("streaming_provider", "sp"), PROVIDER)
  const MEDIAFLOW := External(Pair("mediaflow_config", "mfc"), [Pair("api_password", "ap")])
  const RPDB := External(Pair("rpdb_config", "rpc"), [Pair("api_key", "ak")])
  const MDBLIST := External(Pair("mdblist_config", "mdb"), [Pair("api_key", "ak")])

  const PROFILE := [PROVIDERS, LEGACY, MEDIAFLOW, RPDB, MDBLIST]

  const PASSWORD := Pair("api_password", "ap")

  /** `extract_secrets`; None if it raises. */
  function Extract(config: Dict): Option<Parts> {
    match ExtractAll(config, PROFILE)
    case None => None
    case Some(p) =>
      var pick := PickOf(p.clean, PASSWORD);
      Some(Parts(p.clean - pick, p.secrets + Restrict(p.clean, pick)))
  }

  /** `merge_secrets`; None if it raises. */
  function Merge(config: Dict, secrets: Dict): Option<Dict> {
    match MergeAll(config, secrets, PROFILE)
    case None => None
    case Some(m) => Some(PutPassword(m, secrets))
  }

  function PutPassword(m: Dict, secrets: Dict): Dict {
    match First(secrets, PASSWORD)
    case None => m
    case Some(k) => m[(if PASSWORD.alias in m then PASSWORD.alias else PASSWORD.full) := secrets[k]]
  }

  lemma DistinctCons(p: Pair, ps: seq<Pair>)
    ensures Names([p] + ps) == Both(p) + Names(ps)
    ensures p.full != p.alias && Both(p) !! Names(ps) && Distinct(ps) ==> Distinct([p] + ps)
  {
    assert ([p] + ps)[1..] == ps;
  }

  lemma DistinctTwo(p: Pair, q: Pair)
    requires p.full != p.alias && q.full != q.alias && Both(p) !! Both(q)
    ensures Distinct([p, q]) && Names([p, q]) == Both(p) + Both(q)
  {
    hide Both;
    assert [q] + [] == [q] && [p] + [q] == [p, q];
    DistinctCons(q, []);
    DistinctCons(p, [q]);
  }

  lemma DistinctConstants()
    ensures Distinct(PROVIDER_FIELDS) && Distinct(QBITTORRENT_FIELDS) && Distinct(WEBDAV_FIELDS) && Distinct(NZBGET_FIELDS)
    ensures Distinct([Pair("api_password", "ap")]) && Distinct([Pair("api_key", "ak")])
  {
    hide Distinct, Names;
    var (token, ak, un) := (Pair("token", "tk"), Pair("api_key", "ak"), Pair("username", "un"));
    var (pw, em) := (Pair("password", "pw"), Pair("email", "em"));
    var (wus, wpw) := (Pair("webdav_username", "wus"), Pair("webdav_password", "wpw"));
    OnePair("api_password", "ap");
    OnePair("api_key", "ak");
    DistinctTwo(pw, em);
    DistinctCons(token, [pw, em]);
    assert [token] + [pw, em] == PROVIDER_FIELDS;
    DistinctTwo(Pair("qb_username", "qus"), Pair("qb_password", "qpw"));
    DistinctTwo(wus, wpw);
    DistinctCons(ak, [wus, wpw]);
    assert [ak] + [wus, wpw] == WEBDAV_FIELDS;
    DistinctCons(pw, [wus, wpw]);
    DistinctCons(un, [pw] + [wus, wpw]);
    assert [un] + ([pw] + [wus, wpw]) == NZBGET_FIELDS;
  }

  lemma OnePair(full: string, alias: string)
    requires full != alias
    ensures Distinct([Pair(full, alias)])
  {}

  lemma AllKeysCons(s: Stage, rest: seq<Stage>)
    ensures AllKeys([s] + rest) == Keys(s) + AllKeys(rest)
    ensures WellFormed(s) && Keys(s) !! AllKeys(rest) && WellFormedAll(rest) ==> WellFormedAll([s] + rest)
  {
    assert ([s] + rest)[1..] == rest;
  }

  lemma FourStages(a: Stage, b: Stage, c: Stage, d: Stage)
    requires WellFormed(a) && WellFormed(b) && WellFormed(c) && WellFormed(d)
    requires Keys(a) !! Keys(b) !! Keys(c) !! Keys(d)
    ensures WellFormedAll([a, b, c, d]) && AllKeys([a, b, c, d]) == Keys(a) + Keys(b) + Keys(c) + Keys(d)
  {
    hide WellFormed, WellFormedAll, AllKeys, Keys;
    NoStages();
    assert [d] + [] == [d] && [c] + [d] == [c, d] && [b] + [c, d] == [b, c, d] && [a] + [b, c, d] == [a, b, c, d];
    AllKeysCons(d, []);
    AllKeysCons(c, [d]);
    AllKeysCons(b, [c, d]);
    AllKeysCons(a, [b, c, d]);
  }

  lemma FiveStages(e: Stage, a: Stage, b: Stage, c: Stage, d: Stage)
    requires WellFormed(e) && WellFormed(a) && WellFormed(b) && WellFormed(c) && WellFormed(d)
    requires Keys(e) !! Keys(a) !! Keys(b) !! Keys(c) !! Keys(d)
    ensures WellFormedAll([e, a, b, c, d])
    ensures AllKeys([e, a, b, c, d]) == Keys(e) + Keys(a) + Keys(b) + Keys(c) + Keys(d)
  {
    hide WellFormed, WellFormedAll, AllKeys, Keys;
    FourStages(a, b, c, d);
    assert [e] + [a, b, c, d] == [e, a, b, c, d];
    AllKeysCons(e, [a, b, c, d]);
  }

  lemma KindWellFormed(s: Stage)
    requires (s.Nested? || s.External?) && s.key.full != s.key.alias && Distinct(s.ps)
    ensures WellFormed(s) && Keys(s) == Both(s.key)
  {}

  lemma NoStages()
    ensures AllKeys([]) == {} && WellFormedAll([])
  {}

  lemma ProviderWellFormed()
    ensures WellFormedAll(PROVIDER) && INDEX !in AllKeys(PROVIDER)
  {
    hide WellFormedAll, WellFormed, AllKeys, Keys, Both, Distinct, Names;
    DownloadersWellFormed();
    FieldsWellFormed();
    FiveStages(Fields(PROVIDER_FIELDS), QBITTORRENT, NZBDAV, SABNZBD, NZBGET);
  }

  lemma FieldsWellFormed()
    ensures WellFormed(Fields(PROVIDER_FIELDS))
    ensures Keys(Fields(PROVIDER_FIELDS)) == {"token", "tk", "password", "pw", "email", "em"}
  {
    hide Distinct, Names;
    DistinctConstants();
    ProviderNames();
  }

  lemma DownloadersWellFormed()
    ensures WellFormed(QBITTORRENT) && Keys(QBITTORRENT) == {"qbittorrent_config", "qbc"}
    ensures WellFormed(NZBDAV) && Keys(NZBDAV) == {"nzbdav_config", "ndc"}
    ensures WellFormed(SABNZBD) && Keys(SABNZBD) == {"sabnzbd_config", "sbc"}
    ensures WellFormed(NZBGET) && Keys(NZBGET) == {"nzbget_config", "ngc"}
  {
    hide WellFormed, Keys, Distinct, Names;
    DistinctConstants();
    KindWellFormed(QBITTORRENT);
    KindWellFormed(NZBDAV);
    KindWellFormed(SABNZBD);
    KindWellFormed(NZBGET);
  }

  lemma ProviderNames()
    ensures Names(PROVIDER_FIELDS) == {"token", "tk", "password", "pw", "email", "em"}
  {}

  const PROFILE_KEYS: set<string> :=
    {"streaming_providers", "sps", "streaming_provider", "sp", "mediaflow_config", "mfc", "rpdb_config", "rpc",
     "mdblist_config", "mdb"}

  lemma ProfileWellFormed()
    ensures WellFormedAll(PROFILE) && AllKeys(PROFILE) == PROFILE_KEYS && Both(PASSWORD) !! PROFILE_KEYS
  {
    hide WellFormedAll, AllKeys, Distinct, Names;
    DistinctConstants();
    ProviderWellFormed();
    KindWellFormed(MEDIAFLOW);
    KindWellFormed(RPDB);
    KindWellFormed(MDBLIST);
    FiveStages(PROVIDERS, LEGACY, MEDIAFLOW, RPDB, MDBLIST);
  }

  /** A top-level `ap` comes back as `api_password`. */
  function Renamed(config: Dict): Dict {
    if !Truthy(config, PASSWORD.full) && Truthy(config, PASSWORD.alias)
    then (config - {PASSWORD.alias})[PASSWORD.full := config[PASSWORD.alias]]
    else config
  }

  /** Merging undoes extraction, up to that renaming, exactly if nothing is shadowed: for every
      configuration on which the extraction does not raise, and any number of providers and downloaders. */
  lemma RoundTrip(config: Dict)
    requires Extract(config).Some?
    ensures var p := Extract(config).value;
      Merge(p.clean, p.secrets) == Some(Renamed(config))
      <==> !ShadowedAny(config, PROFILE) && !(Truthy(config, PASSWORD.full) && PASSWORD.alias in config)
  {
    hide ExtractAll, MergeAll, ShadowedAny, AllKeys, WellFormedAll, Truthy;
    ProfileWellFormed();
    var q := ExtractAll(config, PROFILE).value;
    var p := Extract(config).value;
    AllBack(config, PROFILE);
    ExtractAllFrame(config, PROFILE);
    PasswordApart(config, q, PROFILE_KEYS);
    MergeAllLocal(q.clean, q.secrets, p.clean, p.secrets, PROFILE);
    var r, r' := MergeAll(q.clean, q.secrets, PROFILE), MergeAll(p.clean, p.secrets, PROFILE);
    if r'.Some? {
      MergeAllFrame(q.clean, q.secrets, PROFILE);
      MergeAllFrame(p.clean, p.secrets, PROFILE);
      PasswordBack(config, q, r.value, r'.value, PROFILE_KEYS);
    }
  }

  /** The password is no business of the other steps. */
  lemma PasswordApart(config: Dict, q: Parts, ks: set<string>)
    requires Within(config, q.clean, ks) && q.secrets.Keys <= ks
    requires Both(PASSWORD) !! ks
    ensures var pick := PickOf(q.clean, PASSWORD);
      && pick == PickOf(config, PASSWORD)
      && Agree(q.clean, q.clean - pick, ks)
      && Agree(q.secrets, q.secrets + Restrict(q.clean, pick), ks)
  {
    assert PASSWORD.full in Both(PASSWORD) && PASSWORD.alias in Both(PASSWORD);
  }

  /** The password alone. */
  lemma PasswordPut(m: Dict, x: Dict)
    requires x.Keys !! Both(PASSWORD)
    ensures var pick := PickOf(m, PASSWORD);
      PutPassword(m - pick, x + Restrict(m, pick)) == Renamed(m)
      <==> !(Truthy(m, PASSWORD.full) && PASSWORD.alias in m)
  {
    hide IsTrue;
    assert PASSWORD.full in Both(PASSWORD) && PASSWORD.alias in Both(PASSWORD);
    var pick := PickOf(m, PASSWORD);
    var back := PutPassword(m - pick, x + Restrict(m, pick));
    if Truthy(m, PASSWORD.full) {
      if PASSWORD.alias in m {
        assert PASSWORD.full !in back;
      } else {
        assert back == m;
      }
    } else if Truthy(m, PASSWORD.alias) {
      assert back == (m - {PASSWORD.alias})[PASSWORD.full := m[PASSWORD.alias]];
    } else {
      assert m - pick == m;
    }
  }

  lemma PutElsewhere(m: Dict, x: Dict, ks: set<string>)
    requires Both(PASSWORD) !! ks
    ensures Agree(PutPassword(m, x), m, ks) && Agree(Renamed(m), m, ks)
  {
    hide IsTrue;
    assert PASSWORD.full in Both(PASSWORD) && PASSWORD.alias in Both(PASSWORD);
  }

  lemma PasswordBack(config: Dict, q: Parts, r: Dict, r': Dict, ks: set<string>)
    requires Within(config, q.clean, ks) && Within(q.clean, r, ks)
    requires q.secrets.Keys <= ks && Both(PASSWORD) !! ks
    requires var pick := PickOf(q.clean, PASSWORD); Within(q.clean - pick, r', ks)
    requires Agree(r, r', ks)
    ensures var pick := PickOf(q.clean, PASSWORD);
      PutPassword(r', q.secrets + Restrict(q.clean, pick)) == Renamed(config)
      <==> r == config && !(Truthy(config, PASSWORD.full) && PASSWORD.alias in config)
  {
    assert PASSWORD.full in Both(PASSWORD) && PASSWORD.alias in Both(PASSWORD);
    var pick := PickOf(q.clean, PASSWORD);
    assert pick <= Both(PASSWORD) && pick == PickOf(config, PASSWORD) == PickOf(r, PASSWORD);
    hide PickOf, Truthy, PutPassword, Renamed;
    var x := q.secrets + Restrict(q.clean, pick);
    Same(r', r - pick, ks);
    assert Restrict(q.clean, pick) == Restrict(r, pick);
    PutElsewhere(r', x, ks);
    PutElsewhere(config, x, ks);
    PasswordPut(r, q.secrets);
    if PutPassword(r', x) == Renamed(config) {
      assert Agree(r, config, ks);
      Same(r, config, ks);
    }
  }

  // ---------------------------------------------------------------- what is left behind

  /** A listed credential is set anywhere the step could look, under either name. */
  ghost predicate Credential(m: Dict, s: Stage)
    decreases s, 0
  {
    match s
    case Fields(ps) => Holds(m, ps)
    case Nested(key, ps) => HoldsAt(m, key.full, ps) || HoldsAt(m, key.alias, ps)
    case External(key, ps) => HoldsAt(m, key.full, ps) || HoldsAt(m, key.alias, ps)
    case Single(key, inner) =>
      || (key.full in m && CredentialAt(m[key.full], inner))
      || (key.alias in m && CredentialAt(m[key.alias], inner))
    case Many(key, inner) =>
      || (key.full in m && m[key.full].Arr? && exists i :: 0 <= i < |m[key.full].items| && CredentialAt(m[key.full].items[i], inner))
      || (key.alias in m && m[key.alias].Arr? && exists i :: 0 <= i < |m[key.alias].items| && CredentialAt(m[key.alias].items[i], inner))
  }

  ghost predicate HoldsAt(m: Dict, k: string, ps: seq<Pair>) { k in m && m[k].Obj? && Holds(m[k].fields, ps) }

  ghost predicate CredentialAny(m: Dict, stages: seq<Stage>)
    decreases stages, 1
  {
    exists s :: s in stages && Credential(m, s)
  }

  ghost predicate CredentialAt(j: Json, inner: seq<Stage>)
    decreases inner, 2
  {
    j.Obj? && CredentialAny(j.fields, inner)
  }

  /** A credential stands behind another of the same name: both names of a field are set, or there are
      credentials under the alias of a configuration that is also there under its full name. */
  ghost predicate Hidden(m: Dict, s: Stage)
    decreases s, 0
  {
    match s
    case Fields(ps) => Doubled(m, ps)
    case Nested(key, ps) => HiddenNested(m, key, ps)
    case External(key, ps) => HiddenNested(m, key, ps)
    case Single(key, inner) =>
      var k := ActiveSingle(m, key);
      k.Some? && (HiddenAny(m[k.value].fields, inner)
                  || (k.value == key.full && key.alias in m && CredentialAt(m[key.alias], inner)))
    case Many(key, inner) =>
      var k := ActiveMany(m, key);
      k.Some? &&
      ((exists i :: 0 <= i < |m[k.value].items| && HiddenAt(m[k.value].items[i], inner))
       || (k.value == key.full && key.alias in m && m[key.alias].Arr?
           && exists i :: 0 <= i < |m[key.alias].items| && CredentialAt(m[key.alias].items[i], inner)))
  }

  ghost predicate Doubled(m: Dict, ps: seq<Pair>) {
    exists p :: p in ps && Truthy(m, p.full) && Truthy(m, p.alias)
  }

  ghost predicate HiddenNested(m: Dict, key: Pair, ps: seq<Pair>) {
    var k := Active(m, key);
    k.Some? && ((m[k.value].Obj? && Doubled(m[k.value].fields, ps))
                || (k.value == key.full && HoldsAt(m, key.alias, ps)))
  }

  ghost predicate HiddenAny(m: Dict, stages: seq<Stage>)
    decreases stages, 1
  {
    exists s :: s in stages && Hidden(m, s)
  }

  ghost predicate HiddenAt(j: Json, inner: seq<Stage>)
    decreases inner, 2
  {
    j.Obj? && HiddenAny(j.fields, inner)
  }

  lemma {:induction false} PickedAt(m: Dict, ps: seq<Pair>, p: Pair)
    requires Distinct(ps) && p in ps
    ensures Picked(m, ps) * Both(p) == PickOf(m, p) && p.full != p.alias && Both(p) <= Names(ps)
    decreases ps
  {
    hide IsTrue, Truthy;
    if p != ps[0] { PickedAt(m, ps[1..], p); }
  }

  lemma FieldsLeft(m: Dict, ps: seq<Pair>)
    requires Distinct(ps)
    ensures Holds(TakeFields(m, ps).clean, ps) <==> Doubled(m, ps)
  {
    hide IsTrue, Picked;
    var clean := TakeFields(m, ps).clean;
    forall p | p in ps
      ensures Truthy(clean, p.full) || Truthy(clean, p.alias) <==> Truthy(m, p.full) && Truthy(m, p.alias)
    {
      PickedAt(m, ps, p);
      var shared := Picked(m, ps) * Both(p);
      assert p.full in Picked(m, ps) <==> p.full in shared;
      assert p.alias in Picked(m, ps) <==> p.alias in shared;
    }
  }

  lemma NestedLeft(m: Dict, s: Stage)
    requires (s.Nested? || s.External?) && WellFormed(s) && ExtractStage(m, s).Some?
    ensures Credential(ExtractStage(m, s).value.clean, s) <==> Hidden(m, s)
  {
    hide Raises, TakeFields, Holds, Doubled, Distinct;
    NestedParts(m, s.key, s.ps);
    var p := ExtractStage(m, s).value;
    var k := Active(m, s.key);
    if k.Some? && m[k.value].Obj? {
      FieldsLeft(m[k.value].fields, s.ps);
      DoubledHolds(m[k.value].fields, s.ps);
      hide ExtractNested;
      if YieldsNested(m, s.key, s.ps) {
        assert p.clean[k.value] == Obj(TakeFields(m[k.value].fields, s.ps).clean);
      }
    }
  }

  lemma DoubledHolds(m: Dict, ps: seq<Pair>)
    ensures Doubled(m, ps) ==> Holds(m, ps)
  {}

  lemma HoldsLocal(m: Dict, m': Dict, ps: seq<Pair>)
    requires Agree(m, m', Names(ps)) && Distinct(ps) && Holds(m, ps)
    ensures Holds(m', ps)
  {
    hide IsTrue;
    var p :| p in ps && (Truthy(m, p.full) || Truthy(m, p.alias));
    PickedAt(m, ps, p);
    assert p.full in Both(p) && p.alias in Both(p);
  }

  lemma CredentialLocal(m: Dict, m': Dict, s: Stage)
    requires WellFormed(s) && Agree(m, m', Keys(s)) && Credential(m, s)
    ensures Credential(m', s)
  {
    hide Holds, CredentialAt;
    if s.Fields? {
      HoldsLocal(m, m', s.ps);
    } else {
      assert s.key.full in Keys(s) && s.key.alias in Keys(s);
    }
  }

  lemma {:induction false} NothingInNothing(stages: seq<Stage>)
    ensures !CredentialAny(map[], stages)
  {
    forall s | s in stages ensures !Credential(map[], s) {}
  }

  lemma {:induction false} SingleLeft(m: Dict, s: Stage)
    requires s.Single? && WellFormed(s) && ExtractStage(m, s).Some?
    ensures Credential(ExtractStage(m, s).value.clean, s) <==> Hidden(m, s)
    decreases s, 0
  {
    hide ExtractAll, CredentialAny, HiddenAny;
    NothingInNothing(s.inner);
    var k := ActiveSingle(m, s.key);
    if k.Some? {
      var fields := m[k.value].fields;
      var parts := ExtractAll(fields, s.inner).value;
      AllYields(fields, s.inner);
      AllLeft(fields, s.inner);
      assert ExtractStage(m, s).value.clean[k.value] == Obj(parts.clean);
    }
  }

  lemma {:induction false} ListLeft(items: seq<Json>, inner: seq<Stage>, n: nat)
    requires WellFormedAll(inner) && n <= |items| && ExtractList(items, inner, n).Some?
    ensures forall i :: 0 <= i < n ==>
      (CredentialAt(ExtractList(items, inner, n).value.clean[i], inner) <==> HiddenAt(items[i], inner))
    decreases inner, 2, n
  {
    hide ExtractAll, CredentialAny, HiddenAny;
    if n > 0 {
      ListLeft(items, inner, n - 1);
      if items[n - 1].Obj? { AllLeft(items[n - 1].fields, inner); }
    }
  }

  lemma {:induction false} ManyLeft(m: Dict, s: Stage)
    requires s.Many? && WellFormed(s) && ExtractStage(m, s).Some?
    ensures Credential(ExtractStage(m, s).value.clean, s) <==> Hidden(m, s)
    decreases s, 0
  {
    hide ExtractList, CredentialAt, HiddenAt;
    var k := ActiveMany(m, s.key);
    if k.Some? {
      var items := m[k.value].items;
      ListLeft(items, s.inner, |items|);
      var lists := ExtractList(items, s.inner, |items|).value;
      var clean := ExtractStage(m, s).value.clean;
      assert clean[k.value] == Arr(lists.clean);
      assert |lists.clean| == |items|;
      assert k.value == s.key.full || s.key.full !in m || !m[s.key.full].Arr?;
      var other := if k.value == s.key.full then s.key.alias else s.key.full;
      assert Agree(clean, m, {other});
      assert other in {other};
    }
  }

  /** After a step a credential is left exactly if one was hidden. */
  lemma {:induction false} StageLeft(m: Dict, s: Stage)
    requires WellFormed(s) && ExtractStage(m, s).Some?
    ensures Credential(ExtractStage(m, s).value.clean, s) <==> Hidden(m, s)
    decreases s, 1
  {
    match s
    case Fields(ps) => FieldsLeft(m, ps);
    case Nested(_, _) => NestedLeft(m, s);
    case External(_, _) => NestedLeft(m, s);
    case Single(_, _) => SingleLeft(m, s);
    case Many(_, _) => ManyLeft(m, s);
  }

  lemma {:induction false} AllLeft(m: Dict, stages: seq<Stage>)
    requires WellFormedAll(stages) && ExtractAll(m, stages).Some?
    ensures CredentialAny(ExtractAll(m, stages).value.clean, stages) <==> HiddenAny(m, stages)
    decreases stages, 1
  {
    hide ExtractStage, ExtractAll, Credential, Hidden, WellFormed, Keys, Agree;
    var p := ExtractAll(m, stages).value;
    forall s | s in stages ensures Credential(p.clean, s) <==> Hidden(m, s) {
      WellFormedIn(stages, s);
      ExtractAllAt(m, stages, s);
      StageLeft(m, s);
      var q := ExtractStage(m, s).value;
      if Credential(p.clean, s) { CredentialLocal(p.clean, q.clean, s); }
      if Credential(q.clean, s) {
        AgreeBack(p.clean, q.clean, Keys(s));
        CredentialLocal(q.clean, p.clean, s);
      }
    }
  }

  lemma AgreeBack(m: Dict, m': Dict, ks: set<string>)
    requires Agree(m, m', ks)
    ensures Agree(m', m, ks)
  {}

  /** The clean configuration still holds a listed credential exactly if one was hidden behind
      another of the same name; so never, if at most one name of each pair is used. */
  lemma NothingLeft(config: Dict)
    requires Extract(config).Some?
    ensures var clean := Extract(config).value.clean;
      CredentialAny(clean, PROFILE) || Holds(clean, [PASSWORD])
      <==> HiddenAny(config, PROFILE) || Doubled(config, [PASSWORD])
  {
    hide ExtractAll, Credential, CredentialAny, HiddenAny, Holds, Doubled, WellFormedAll, AllKeys;
    ProfileWellFormed();
    AllLeft(config, PROFILE);
    var q := ExtractAll(config, PROFILE).value;
    var clean := Extract(config).value.clean;
    ExtractAllFrame(config, PROFILE);
    PasswordApart(config, q, PROFILE_KEYS);
    CredentialAnyLocal(q.clean, clean, PROFILE);
    AgreeBack(q.clean, clean, PROFILE_KEYS);
    CredentialAnyLocal(clean, q.clean, PROFILE);
    PasswordLeft(config, q.clean, PROFILE_KEYS);
  }

  lemma CredentialAnyLocal(m: Dict, m': Dict, stages: seq<Stage>)
    requires WellFormedAll(stages) && Agree(m, m', AllKeys(stages))
    ensures CredentialAny(m, stages) ==> CredentialAny(m', stages)
  {
    hide Credential, WellFormedAll, WellFormed, Keys;
    if CredentialAny(m, stages) {
      var s :| s in stages && Credential(m, s);
      WellFormedIn(stages, s);
      KeysIn(stages, s);
      CredentialLocal(m, m', s);
    }
  }

  lemma PasswordLeft(config: Dict, m: Dict, ks: set<string>)
    requires Within(config, m, ks) && Both(PASSWORD) !! ks
    ensures Holds(m - PickOf(m, PASSWORD), [PASSWORD]) <==> Doubled(config, [PASSWORD])
  {
    hide IsTrue;
    assert PASSWORD.full in Both(PASSWORD) && PASSWORD.alias in Both(PASSWORD);
    assert PASSWORD in [PASSWORD] && forall p :: p in [PASSWORD] ==> p == PASSWORD;
  }

  // ---------------------------------------------------------------- configurations on which it fails

  /** A step none of whose keys is there does not raise. */
  lemma NotThere(m: Dict, s: Stage)
    requires Keys(s) !! m.Keys && !s.Fields?
    ensures ExtractStage(m, s).Some?
  {
    assert s.key.full in Keys(s) && s.key.alias in Keys(s);
  }

  /** A key of RPDB under the full name of its configuration, beside an empty one under the alias: what is
      merged is not what was split. */
  lemma ShadowedExample(key: Json)
    requires IsTrue(key)
    ensures var config := map["rpdb_config" := Obj(map["api_key" := key]), "rpc" := Obj(map[])];
      Extract(config).Some? &&
      Merge(Extract(config).value.clean, Extract(config).value.secrets) != Some(Renamed(config))
  {
    hide ExtractAll, MergeAll, Extract, Merge, ExtractStage, Shadowed, IsTrue;
    var fields: Dict := map["api_key" := key];
    var config: Dict := map["rpdb_config" := Obj(fields), "rpc" := Obj(map[])];
    assert Truthy(fields, "api_key");
    KeyUnderName(config, fields);
    OnlyRpdb(config);
    assert RPDB == PROFILE[3];
    RoundTrip(config);
  }

  lemma OnlyRpdb(config: Dict)
    requires config.Keys == Both(RPDB.key) && ExtractStage(config, RPDB).Some?
    ensures Extract(config).Some?
  {
    hide ExtractStage, Extract;
    NotThere(config, PROVIDERS);
    NotThere(config, LEGACY);
    NotThere(config, MEDIAFLOW);
    NotThere(config, MDBLIST);
    ExtractSucceeds(config);
  }

  lemma KeyUnderName(config: Dict, fields: Dict)
    requires RPDB.key.full in config && RPDB.key.alias in config && config[RPDB.key.full] == Obj(fields)
    requires Truthy(fields, "api_key")
    ensures ExtractStage(config, RPDB).Some? && Shadowed(config, RPDB)
  {
    assert Pair("api_key", "ak") in RPDB.ps;
    assert Holds(fields, RPDB.ps);
  }

  lemma ExtractSucceeds(config: Dict)
    requires forall s :: s == PROVIDERS || s == LEGACY || s == MEDIAFLOW || s == RPDB || s == MDBLIST ==>
      ExtractStage(config, s).Some?
    ensures Extract(config).Some?
  {
    hide ExtractStage, ExtractAll, WellFormedAll;
    ProfileWellFormed();
    ExtractAllSucceeds(config, PROFILE);
  }

  /** A provider with a token under both names: the second one stays in the clean configuration. */
  lemma HiddenExample(token: Json, tk: Json)
    requires IsTrue(token) && IsTrue(tk)
    ensures var config := map["streaming_provider" := Obj(map["token" := token, "tk" := tk])];
      Extract(config).Some? && CredentialAny(Extract(config).value.clean, PROFILE)
  {
    hide Extract, ExtractAll, CredentialAny, HiddenAny, Holds, Doubled, ActiveSingle;
    var fields: Dict := map["token" := token, "tk" := tk];
    var config: Dict := map["streaming_provider" := Obj(fields)];
    OnlyFields(fields);
    OnlyProvider(config, fields);
    TwoTokens(fields);
    HiddenInProvider(config, fields);
    NothingLeft(config);
    NoPassword(config);
  }

  lemma OnlyFields(fields: Dict)
    requires fields.Keys == {"token", "tk"}
    ensures ExtractAll(fields, PROVIDER).Some?
  {
    hide ExtractAll, WellFormedAll, ExtractStage;
    ProviderWellFormed();
    NotThere(fields, QBITTORRENT);
    NotThere(fields, NZBDAV);
    NotThere(fields, SABNZBD);
    NotThere(fields, NZBGET);
    FieldsSucceed(fields, PROVIDER_FIELDS);
    ExtractAllSucceeds(fields, PROVIDER);
  }

  lemma FieldsSucceed(m: Dict, ps: seq<Pair>)
    ensures ExtractStage(m, Fields(ps)).Some?
  {}

  lemma OnlyProvider(config: Dict, fields: Dict)
    requires config == map["streaming_provider" := Obj(fields)] && fields != map[]
    requires ExtractAll(fields, PROVIDER).Some?
    ensures Extract(config).Some? && ActiveSingle(config, LEGACY.key) == Some("streaming_provider")
  {
    hide ExtractAll, Extract;
    NotThere(config, PROVIDERS);
    NotThere(config, MEDIAFLOW);
    NotThere(config, RPDB);
    NotThere(config, MDBLIST);
    assert ExtractStage(config, LEGACY).Some?;
    hide ExtractStage;
    ExtractSucceeds(config);
  }

  lemma TwoTokens(fields: Dict)
    requires Truthy(fields, "token") && Truthy(fields, "tk")
    ensures HiddenAny(fields, PROVIDER)
  {
    var stage := Fields(PROVIDER_FIELDS);
    assert Pair("token", "tk") in PROVIDER_FIELDS && Doubled(fields, PROVIDER_FIELDS);
    assert Hidden(fields, stage) && stage == PROVIDER[0];
  }

  lemma HiddenInProvider(config: Dict, fields: Dict)
    requires config == map["streaming_provider" := Obj(fields)] && HiddenAny(fields, PROVIDER)
    requires ActiveSingle(config, LEGACY.key) == Some("streaming_provider")
    ensures HiddenAny(config, PROFILE)
  {
    hide ActiveSingle;
    assert Hidden(config, LEGACY) && LEGACY == PROFILE[1];
  }

  lemma NoPassword(config: Dict)
    requires PASSWORD.full !in config && PASSWORD.alias !in config && Extract(config).Some?
    ensures !Holds(Extract(config).value.clean, [PASSWORD])
  {
    hide ExtractAll, WellFormedAll, AllKeys;
    ProfileWellFormed();
    ExtractAllFrame(config, PROFILE);
    var q := ExtractAll(config, PROFILE).value;
    PasswordLeft(config, q.clean, PROFILE_KEYS);
    assert PASSWORD.full in Both(PASSWORD);
    assert forall p :: p in [PASSWORD] ==> p == PASSWORD;
  }
}
