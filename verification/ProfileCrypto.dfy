/** `ProfileCrypto.extract_secrets` and `merge_secrets` (python-deprecated/utils/profile_crypto.py) step by
    step, against their specification in ProfileSecrets. */
module ProfileCrypto {
  import opened Wrappers
  import opened ProfileSecrets

  // ---------------------------------------------------------------- extraction

  /** Taking the first pair, then the others. */
  lemma TakeStep(m: Dict, ps: seq<Pair>)
    requires Distinct(ps) && ps != []
    ensures var pick := PickOf(m, ps[0]);
      var rest := TakeFields(m - pick, ps[1..]);
      TakeFields(m, ps) == Parts(rest.clean, Restrict(m, pick) + rest.secrets)
  {
    var pick := PickOf(m, ps[0]);
    assert pick <= Both(ps[0]);
    PickedLocal(m, m - pick, ps[1..]);
    var rest := TakeFields(m - pick, ps[1..]);
    assert TakeFields(m, ps).clean == rest.clean;
    assert TakeFields(m, ps).secrets == Restrict(m, pick) + rest.secrets;
  }

  /** The value under the full name, or else the one under the alias. */
  method ExtractField(m: Dict, p: Pair) returns (clean: Dict, secrets: Dict)
    ensures clean == m - PickOf(m, p) && secrets == Restrict(m, PickOf(m, p))
  {
    hide IsTrue;
    clean, secrets := m, map[];
    if p.full in clean && IsTrue(clean[p.full]) {
      secrets := map[p.full := clean[p.full]];
      clean := clean - {p.full};
    } else if p.alias in clean && IsTrue(clean[p.alias]) {
      secrets := map[p.alias := clean[p.alias]];
      clean := clean - {p.alias};
    } else {
      assert m - {} == m;
    }
  }

  method ExtractFields(m: Dict, ps: seq<Pair>) returns (clean: Dict, secrets: Dict)
    requires Distinct(ps)
    ensures Parts(clean, secrets) == TakeFields(m, ps)
  {
    hide TakeFields, IsTrue, PickOf, Restrict;
    clean, secrets := m, map[];
    assert ps[0..] == ps && map[] + TakeFields(m, ps).secrets == TakeFields(m, ps).secrets;
    for i := 0 to |ps|
      invariant Distinct(ps[i..])
      invariant var rest := TakeFields(clean, ps[i..]); TakeFields(m, ps) == Parts(rest.clean, secrets + rest.secrets)
    {
      TakeStep(clean, ps[i..]);
      assert ps[i..][1..] == ps[i + 1..];
      var taken;
      clean, taken := ExtractField(clean, ps[i]);
      ghost var rest := TakeFields(clean, ps[i + 1..]).secrets;
      assert secrets + (taken + rest) == secrets + taken + rest;
      secrets := secrets + taken;
    }
    TakeNone(clean);
    assert ps[|ps|..] == [] && secrets + map[] == secrets;
  }

  lemma TakeNone(m: Dict)
    ensures TakeFields(m, []) == Parts(m, map[])
  {}

  /** A nested configuration: a downloader of a provider or an external service. */
  method ExtractConfig(m: Dict, key: Pair, ps: seq<Pair>) returns (r: Option<Parts>)
    requires Distinct(ps)
    ensures r == ExtractNested(m, key, ps)
  {
    hide TakeFields, Raises, IsTrue;
    var k := Active(m, key);
    if k.None? || !IsTrue(m[k.value]) {
      return Some(Parts(m, map[]));
    }
    var config := m[k.value];
    if Raises(config, ps) {
      return None;
    }
    if !config.Obj? {
      return Some(Parts(m, map[]));
    }
    var clean, secrets := ExtractFields(config.fields, ps);
    if secrets == map[] {
      return Some(Parts(m, map[]));
    }
    return Some(Parts(m[k.value := Obj(clean)], map[k.value := Obj(secrets)]));
  }

  /** What remains of an extraction when `taken` has been taken already. */
  ghost function Continue(taken: Dict, rest: Option<Parts>): Option<Parts> {
    match rest
    case None => None
    case Some(p) => Some(Parts(p.clean, taken + p.secrets))
  }

  lemma ExtractStep(m: Dict, taken: Dict, s: Stage, rest: seq<Stage>)
    ensures Continue(taken, ExtractAll(m, [s] + rest)) ==
      match ExtractStage(m, s)
      case None => None
      case Some(p) => Continue(taken + p.secrets, ExtractAll(p.clean, rest))
  {
    hide ExtractStage;
    assert ([s] + rest)[1..] == rest;
    var p := ExtractStage(m, s);
    if p.Some? {
      var q := ExtractAll(p.value.clean, rest);
      if q.Some? {
        assert taken + (p.value.secrets + q.value.secrets) == taken + p.value.secrets + q.value.secrets;
      }
    }
  }

  lemma ExtractDone(m: Dict, taken: Dict)
    ensures Continue(taken, ExtractAll(m, [])) == Some(Parts(m, taken))
  {
    assert taken + map[] == taken;
  }

  function Tagged(secrets: Dict, index: Option<nat>): Dict {
    if secrets != map[] && index.Some? then secrets[INDEX := Num(index.value)] else secrets
  }

  const DOWNLOADERS := [QBITTORRENT, NZBDAV, SABNZBD, NZBGET]

  /** `extract_provider_secrets`. */
  method ExtractProvider(provider: Dict, index: Option<nat>) returns (r: Option<Parts>)
    ensures r == match ExtractAll(provider, PROVIDER)
                 case None => None
                 case Some(p) => Some(Parts(p.clean, Tagged(p.secrets, index)))
  {
    hide ExtractAll, ExtractNested, TakeFields, Continue;
    DistinctConstants();
    hide Distinct;
    var clean, secrets := ExtractFields(provider, PROVIDER_FIELDS);
    assert [Fields(PROVIDER_FIELDS)] + DOWNLOADERS == PROVIDER;
    Whole(provider, PROVIDER);
    ExtractStep(provider, map[], Fields(PROVIDER_FIELDS), DOWNLOADERS);
    assert map[] + secrets == secrets;
    assert Continue(map[], ExtractAll(provider, PROVIDER)) == Continue(secrets, ExtractAll(clean, DOWNLOADERS));
    var ok;
    ok, clean, secrets := ExtractDownloaders(clean, secrets);
    if !ok {
      return None;
    }
    if secrets != map[] && index.Some? {
      secrets := secrets[INDEX := Num(index.value)];
    }
    return Some(Parts(clean, secrets));
  }

  lemma Whole(m: Dict, stages: seq<Stage>)
    ensures Continue(map[], ExtractAll(m, stages)) == ExtractAll(m, stages)
  {
    var p := ExtractAll(m, stages);
    if p.Some? { assert map[] + p.value.secrets == p.value.secrets; }
  }

  /** The four downloaders of a provider in turn. */
  method ExtractDownloaders(provider: Dict, taken: Dict) returns (ok: bool, clean: Dict, secrets: Dict)
    ensures Continue(taken, ExtractAll(provider, DOWNLOADERS)) == if ok then Some(Parts(clean, secrets)) else None
  {
    hide ExtractAll, ExtractNested, Continue;
    DistinctConstants();
    hide Distinct;
    clean, secrets := provider, taken;
    for i := 0 to |DOWNLOADERS|
      invariant Continue(taken, ExtractAll(provider, DOWNLOADERS)) == Continue(secrets, ExtractAll(clean, DOWNLOADERS[i..]))
    {
      var s := DOWNLOADERS[i];
      assert DOWNLOADERS[i..] == [s] + DOWNLOADERS[i + 1..];
      ExtractStep(clean, secrets, s, DOWNLOADERS[i + 1..]);
      var parts := ExtractConfig(clean, s.key, s.ps);
      if parts.None? {
        return false, clean, secrets;
      }
      clean, secrets := parts.value.clean, secrets + parts.value.secrets;
    }
    ExtractDone(clean, secrets);
    assert DOWNLOADERS[|DOWNLOADERS|..] == [];
    return true, clean, secrets;
  }

  /** The providers of a list. */
  method ExtractProviders(items: seq<Json>) returns (r: Option<Lists>)
    ensures r == ExtractList(items, PROVIDER, |items|)
  {
    hide ExtractAll;
    var clean, secrets := items, [];
    for i := 0 to |items|
      invariant ExtractList(items, PROVIDER, i) == Some(Lists(clean, secrets))
    {
      if items[i].Obj? {
        var parts := ExtractProvider(items[i].fields, Some(i));
        if parts.None? {
          NoneStays(items, PROVIDER, i + 1, |items|);
          return None;
        }
        clean := clean[i := Obj(parts.value.clean)];
        if parts.value.secrets != map[] {
          secrets := secrets + [Obj(parts.value.secrets)];
        }
      }
    }
    return Some(Lists(clean, secrets));
  }

  lemma {:induction false} NoneStays(items: seq<Json>, inner: seq<Stage>, n: nat, n': nat)
    requires n <= n' <= |items| && ExtractList(items, inner, n).None?
    ensures ExtractList(items, inner, n').None?
    decreases n'
  {
    hide ExtractAll;
    if n < n' { NoneStays(items, inner, n, n' - 1); }
  }

  /** `extract_secrets`. */
  method ExtractSecrets(config: Dict) returns (r: Option<Parts>)
    ensures r == Extract(config)
  {
    hide ExtractAll, ExtractList, ExtractNested, Continue, IsTrue;
    var clean, secrets: Dict := config, map[];
    Whole(config, PROFILE);

    ExtractStep(clean, secrets, PROVIDERS, [LEGACY] + EXTERNALS);
    assert PROFILE == [PROVIDERS] + ([LEGACY] + EXTERNALS);
    var k := ActiveMany(clean, PROVIDERS.key);
    if k.Some? {
      var lists := ExtractProviders(clean[k.value].items);
      if lists.None? {
        return None;
      }
      clean := clean[k.value := Arr(lists.value.clean)];
      if lists.value.secrets != [] {
        secrets := map[k.value := Arr(lists.value.secrets)];
      }
    }
    assert map[] + secrets == secrets;
    assert Continue(map[], ExtractAll(config, PROFILE)) == Continue(secrets, ExtractAll(clean, [LEGACY] + EXTERNALS));

    ExtractStep(clean, secrets, LEGACY, EXTERNALS);
    k := ActiveSingle(clean, LEGACY.key);
    if k.Some? {
      var parts := ExtractProvider(clean[k.value].fields, None);
      if parts.None? {
        return None;
      }
      if parts.value.secrets != map[] {
        clean := clean[k.value := Obj(parts.value.clean)];
        secrets := secrets + map[k.value := Obj(parts.value.secrets)];
      }
    }
    assert secrets + map[] == secrets;
    assert Continue(map[], ExtractAll(config, PROFILE)) == Continue(secrets, ExtractAll(clean, EXTERNALS));

    var ok;
    ok, clean, secrets := ExtractExternals(clean, secrets);
    if !ok {
      return None;
    }
    ghost var p := Parts(clean, secrets);
    assert ExtractAll(config, PROFILE) == Some(p);

    var password;
    clean, password := ExtractField(clean, PASSWORD);
    return Some(Parts(clean, secrets + password));
  }

  const EXTERNALS := [MEDIAFLOW, RPDB, MDBLIST]

  /** The external services in turn. */
  method ExtractExternals(config: Dict, taken: Dict) returns (ok: bool, clean: Dict, secrets: Dict)
    ensures Continue(taken, ExtractAll(config, EXTERNALS)) == if ok then Some(Parts(clean, secrets)) else None
  {
    hide ExtractAll, ExtractNested, Continue;
    DistinctConstants();
    hide Distinct;
    clean, secrets := config, taken;
    for i := 0 to |EXTERNALS|
      invariant Continue(taken, ExtractAll(config, EXTERNALS)) == Continue(secrets, ExtractAll(clean, EXTERNALS[i..]))
    {
      var s := EXTERNALS[i];
      assert EXTERNALS[i..] == [s] + EXTERNALS[i + 1..];
      ExtractStep(clean, secrets, s, EXTERNALS[i + 1..]);
      var parts := ExtractConfig(clean, s.key, s.ps);
      if parts.None? {
        return false, clean, secrets;
      }
      clean, secrets := parts.value.clean, secrets + parts.value.secrets;
    }
    ExtractDone(clean, secrets);
    assert EXTERNALS[|EXTERNALS|..] == [];
    return true, clean, secrets;
  }

  // ---------------------------------------------------------------- merging

  function Elements(names: seq<string>): set<string> { set n | n in names }

  function FieldNames(ps: seq<Pair>): (r: seq<string>)
    ensures Elements(r) == Names(ps)
  {
    if ps == [] then []
    else
      var rest := FieldNames(ps[1..]);
      assert Elements([ps[0].full, ps[0].alias] + rest) == Both(ps[0]) + Elements(rest);
      [ps[0].full, ps[0].alias] + rest
  }

  /** The named fields of `from` go into `m`. */
  method MergeFields(m: Dict, from: Dict, names: seq<string>) returns (r: Dict)
    ensures r == m + Restrict(from, Elements(names))
  {
    r := m;
    for i := 0 to |names|
      invariant r == m + Restrict(from, Elements(names[..i]))
    {
      ghost var (before, after) := (Elements(names[..i]), Elements(names[..i + 1]));
      assert names[..i + 1] == names[..i] + [names[i]];
      assert after == before + {names[i]};
      if names[i] in from {
        r := r[names[i] := from[names[i]]];
      }
    }
    assert names[..|names|] == names;
  }

  /** Credentials into the configuration at the target, created if there is none. */
  method MergeConfig(m: Dict, secrets: Dict, key: Pair, from: string, ps: seq<Pair>, created: string)
    returns (r: Option<Dict>)
    ensures r == MergeInto(m, secrets, key, from, ps, created)
  {
    hide Names;
    if from !in secrets {
      return Some(m);
    }
    var at := Target(m, key, created);
    var base := if at in m then m[at] else Obj(map[]);
    if Raises(secrets[from], ps) {
      return None;
    }
    if !secrets[from].Obj? {
      assert base.Obj? ==> base.fields + map[] == base.fields;
      return Some(if base.Obj? then m[at := base] else m);
    }
    var names := FieldNames(ps);
    if !base.Obj? {
      var add := MergeFields(map[], secrets[from].fields, names);
      assert map[] + Restrict(secrets[from].fields, Names(ps)) == Restrict(secrets[from].fields, Names(ps));
      return if add == map[] then Some(m) else None;
    }
    var merged := MergeFields(base.fields, secrets[from].fields, names);
    return Some(m[at := Obj(merged)]);
  }

  lemma MergeStep(m: Dict, secrets: Dict, s: Stage, rest: seq<Stage>)
    ensures MergeAll(m, secrets, [s] + rest) ==
      match MergeStage(m, secrets, s)
      case None => None
      case Some(m') => MergeAll(m', secrets, rest)
  {
    hide MergeStage;
    assert ([s] + rest)[1..] == rest;
  }

  /** `merge_provider_secrets`. */
  method MergeProviderSecrets(provider: Dict, secrets: Dict) returns (r: Option<Dict>)
    ensures r == MergeAll(provider, secrets, PROVIDER)
  {
    hide MergeAll, MergeInto, Names, Restrict;
    var m := MergeFields(provider, secrets, FieldNames(PROVIDER_FIELDS));
    MergeStep(provider, secrets, Fields(PROVIDER_FIELDS), DOWNLOADERS);
    assert [Fields(PROVIDER_FIELDS)] + DOWNLOADERS == PROVIDER;
    for i := 0 to |DOWNLOADERS|
      invariant MergeAll(provider, secrets, PROVIDER) == MergeAll(m, secrets, DOWNLOADERS[i..])
    {
      var s := DOWNLOADERS[i];
      assert DOWNLOADERS[i..] == [s] + DOWNLOADERS[i + 1..];
      MergeStep(m, secrets, s, DOWNLOADERS[i + 1..]);
      var first := MergeConfig(m, secrets, s.key, s.key.full, s.ps, s.key.full);
      if first.None? {
        return None;
      }
      var second := MergeConfig(first.value, secrets, s.key, s.key.alias, s.ps, s.key.full);
      if second.None? {
        return None;
      }
      m := second.value;
    }
    MergeDone(m, secrets);
    assert DOWNLOADERS[|DOWNLOADERS|..] == [];
    return Some(m);
  }

  lemma MergeDone(m: Dict, secrets: Dict)
    ensures MergeAll(m, secrets, []) == Some(m)
  {}

  /** The same for values that may be no dictionaries. */
  method MergeInProvider(provider: Json, secrets: Json) returns (r: Option<Json>)
    ensures r == MergeProvider(provider, secrets, PROVIDER)
  {
    hide MergeAll, Inert;
    if provider.Obj? && secrets.Obj? {
      var m := MergeProviderSecrets(provider.fields, secrets.fields);
      return if m.None? then None else Some(Obj(m.value));
    }
    return if Inert(provider, secrets, PROVIDER) then Some(provider) else None;
  }

  /** The list of providers. */
  method MergeProviders(items: seq<Json>, secrets: seq<Json>) returns (r: Option<seq<Json>>)
    ensures r == MergeList(items, secrets, PROVIDER, |secrets|)
  {
    hide MergeAll;
    var merged := items;
    for i := 0 to |secrets|
      invariant MergeList(items, secrets, PROVIDER, i) == Some(merged)
    {
      var index := IndexOf(secrets[i]);
      var fails := index.None?;
      if !fails && index.value < |items| {
        var at := if index.value < 0 then index.value + |items| else index.value;
        fails := at < 0;
        if !fails {
          var p := MergeInProvider(merged[at], secrets[i]);
          fails := p.None?;
          if !fails {
            merged := merged[at := p.value];
          }
        }
      }
      if fails {
        MergeNone(items, secrets, PROVIDER, i + 1, |secrets|);
        return None;
      }
    }
    return Some(merged);
  }

  lemma {:induction false} MergeNone(items: seq<Json>, secrets: seq<Json>, inner: seq<Stage>, n: nat, n': nat)
    requires n <= n' <= |secrets| && MergeList(items, secrets, inner, n).None?
    ensures MergeList(items, secrets, inner, n').None?
    decreases n'
  {
    hide MergeProvider, IndexOf;
    if n < n' { MergeNone(items, secrets, inner, n, n' - 1); }
  }

  /** `merge_secrets`. */
  method MergeSecrets(config: Dict, secrets: Dict) returns (r: Option<Dict>)
    ensures r == Merge(config, secrets)
  {
    hide MergeAll, MergeList, MergeInto, First, Target;
    var m := config;

    assert PROFILE == [PROVIDERS] + ([LEGACY] + EXTERNALS);
    MergeStep(m, secrets, PROVIDERS, [LEGACY] + EXTERNALS);
    var from := First(secrets, PROVIDERS.key);
    if from.Some? {
      SecretThere(secrets, PROVIDERS.key);
      var at := Target(m, PROVIDERS.key, from.value);
      var base := if at in m then m[at] else Arr([]);
      var entries := Entries(secrets[from.value]);
      if entries.None? {
        return None;
      }
      if !base.Arr? {
        if exists i :: 0 <= i < |entries.value| && !PassedOver(base, entries.value[i], PROVIDER) {
          return None;
        }
      } else {
        var merged := MergeProviders(base.items, entries.value);
        if merged.None? {
          return None;
        }
        m := m[at := Arr(merged.value)];
      }
    }
    assert MergeAll(config, secrets, PROFILE) == MergeAll(m, secrets, [LEGACY] + EXTERNALS);

    MergeStep(m, secrets, LEGACY, EXTERNALS);
    from := First(secrets, LEGACY.key);
    if from.Some? {
      SecretThere(secrets, LEGACY.key);
      var at := Target(m, LEGACY.key, from.value);
      var base := if at in m then m[at] else Obj(map[]);
      var merged := MergeInProvider(base, secrets[from.value]);
      if merged.None? {
        return None;
      }
      m := m[at := merged.value];
    }
    assert MergeAll(config, secrets, PROFILE) == MergeAll(m, secrets, EXTERNALS);

    var merged := MergeExternals(m, secrets);
    if merged.None? {
      return None;
    }
    return Some(PutPassword(merged.value, secrets));
  }

  lemma SecretThere(secrets: Dict, key: Pair)
    ensures First(secrets, key).Some? ==> First(secrets, key).value in secrets
  {}

  /** The external services in turn. */
  method MergeExternals(config: Dict, secrets: Dict) returns (r: Option<Dict>)
    ensures r == MergeAll(config, secrets, EXTERNALS)
  {
    hide MergeAll, MergeInto, First;
    var m := config;
    for i := 0 to |EXTERNALS|
      invariant MergeAll(config, secrets, EXTERNALS) == MergeAll(m, secrets, EXTERNALS[i..])
    {
      var s := EXTERNALS[i];
      assert EXTERNALS[i..] == [s] + EXTERNALS[i + 1..];
      MergeStep(m, secrets, s, EXTERNALS[i + 1..]);
      var from := First(secrets, s.key);
      if from.Some? {
        var merged := MergeConfig(m, secrets, s.key, from.value, s.ps, from.value);
        if merged.None? {
          return None;
        }
        m := merged.value;
      }
    }
    MergeDone(m, secrets);
    assert EXTERNALS[|EXTERNALS|..] == [];
    return Some(m);
  }
}
