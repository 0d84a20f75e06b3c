/** The caches around the decryption of secrets (python-deprecated/utils/crypto.py). */
module DecryptCache {
  import opened Wrappers

  const DECRYPT_TTL: int := 120
  const DECRYPT_MAX: nat := 2048
  const INVALID_TTL: int := 300
  const INVALID_MAX: nat := 4096
  const MAX_SECRET_LENGTH: nat := 4096

  // ---------------------------------------------------------------- dictionaries that keep their order

  /** An entry of a dictionary; the oldest comes first. */
  datatype Entry<V> = Entry(key: string, expires: real, value: V)

  type Store<V> = seq<Entry<V>>

  predicate Unique<V(!new)>(d: Store<V>) {
    forall i, j :: 0 <= i < j < |d| ==> d[i].key != d[j].key
  }

  function Find<V(!new)>(d: Store<V>, key: string): (r: Option<Entry<V>>)
    ensures r.Some? ==> r.value in d && r.value.key == key
    ensures r.None? ==> forall e :: e in d ==> e.key != key
  {
    if d == [] then None else if d[0].key == key then Some(d[0]) else Find(d[1..], key)
  }

  function Remove<V(!new)>(d: Store<V>, key: string): (r: Store<V>)
    ensures forall e :: e in r <==> e in d && e.key != key
    ensures |r| <= |d| && (Unique(d) ==> Unique(r))
  {
    if d == [] then []
    else if d[0].key == key then Remove(d[1..], key)
    else
      var rest := Remove(d[1..], key);
      assert Unique(d) ==> forall e :: e in rest ==> e.key != d[0].key;
      [d[0]] + rest
  }

  function Unexpired<V(!new)>(d: Store<V>, now: real): (r: Store<V>)
    ensures forall e :: e in r <==> e in d && e.expires > now
    ensures |r| <= |d| && (Unique(d) ==> Unique(r))
  {
    if d == [] then []
    else if d[0].expires <= now then Unexpired(d[1..], now)
    else
      var rest := Unexpired(d[1..], now);
      assert Unique(d) ==> forall e :: e in rest ==> e.key != d[0].key;
      [d[0]] + rest
  }

  /** Assignment: a known key keeps its place. */
  function Assign<V(!new)>(d: Store<V>, e: Entry<V>): (r: Store<V>)
    ensures e in r && forall f :: f in r ==> f == e || (f in d && f.key != e.key)
    ensures forall f :: f in d && f.key != e.key ==> f in r
    ensures |r| <= |d| + 1 && (Unique(d) ==> Unique(r))
    ensures (forall f :: f in d ==> f.key != e.key) || |r| <= |d|
  {
    if d == [] then [e]
    else if d[0].key == e.key then [e] + Remove(d[1..], e.key)
    else
      var rest := Assign(d[1..], e);
      assert Unique(d) ==> forall f :: f in rest ==> f.key != d[0].key;
      [d[0]] + rest
  }

  /** Store an entry: expired ones go first, then the oldest if there are still too many. */
  function Insert<V(!new)>(d: Store<V>, cap: nat, now: real, e: Entry<V>): (r: Store<V>)
    requires cap > 0
    ensures e in r && forall f :: f in r ==> f == e || f in d
    ensures |d| <= cap ==> |r| <= cap
    ensures Unique(d) ==> Unique(r)
  {
    var live := Unexpired(d, now);
    Assign(if |live| >= cap then live[1..] else live, e)
  }

  // ---------------------------------------------------------------- decryption without caches

  /** What decoding a direct secret gives: a value, a ValueError, or another exception. */
  datatype Decoded<U> = Good(user: U) | ValueError | OtherError

  /** What a caller of `decrypt_user_data` sees: a value, the error "Invalid user data", or an error with a
      message for the user. */
  datatype Reply<U> = Value(user: U) | Invalid | Message

  /** The outcome of looking up a profile. */
  datatype Looked<U> = Found(user: U) | LookupMessage | LookupValueError | LookupError

  predicate StartsWith(s: string, prefix: string) { prefix <= s }

  /** `decrypt_user_data` without the caches, for a secret that is no profile id. */
  function Plain<U(!new)>(secret: string, blank: U, decode: string -> Decoded<U>): Reply<U> {
    if secret == "" then Value(blank)
    else if |secret| > MAX_SECRET_LENGTH then Invalid
    else if StartsWith(secret, "R-") then Message
    else if !StartsWith(secret, "D-") then Invalid
    else match decode(secret[2..])
      case Good(user) => Value(user)
      case _ => Invalid
  }

  // ---------------------------------------------------------------- the caches

  datatype Caches<U> = Caches(decrypted: Store<U>, invalid: Store<()>)

  ghost predicate Sized<U(!new)>(c: Caches<U>) {
    && Unique(c.decrypted) && |c.decrypted| <= DECRYPT_MAX
    && Unique(c.invalid) && |c.invalid| <= INVALID_MAX
  }

  function DropExpired<V(!new)>(d: Store<V>, key: string, now: real): Store<V> {
    var e := Find(d, key);
    if e.Some? && e.value.expires <= now then Remove(d, key) else d
  }

  function Alive<V(!new)>(d: Store<V>, key: string, now: real): Option<Entry<V>> {
    var e := Find(d, key);
    if e.Some? && e.value.expires > now then e else None
  }

  function Mark<U(!new)>(c: Caches<U>, digest: string, now: real): Caches<U> {
    c.(invalid := Insert(c.invalid, INVALID_MAX, now, Entry(digest, now + INVALID_TTL as real, ())))
  }

  function Keep<U(!new)>(c: Caches<U>, secret: string, digest: string, user: U, now: real): Caches<U> {
    Caches(Insert(c.decrypted, DECRYPT_MAX, now, Entry(secret, now + DECRYPT_TTL as real, user)), Remove(c.invalid, digest))
  }

  /** Readings of the clock: for the invalid secrets, for the decrypted values, and for storing. */
  datatype Clock = Clock(first: real, second: real, third: real)

  /** The part of `decrypt_user_data` that looks into the caches; with an answer, if there is one. */
  function LookUp<U(!new)>(c: Caches<U>, secret: string, blank: U, digest: string -> string, clock: Clock): (Caches<U>, Option<Reply<U>>) {
    if secret == "" then (c, Some(Value(blank)))
    else if |secret| > MAX_SECRET_LENGTH then (Mark(c, digest(secret), clock.first), Some(Invalid))
    else
      var d := digest(secret);
      var c' := c.(invalid := DropExpired(c.invalid, d, clock.first));
      if Alive(c.invalid, d, clock.first).Some? then (c', Some(Invalid))
      else
        var hit := Alive(c.decrypted, secret, clock.second);
        (c'.(decrypted := DropExpired(c.decrypted, secret, clock.second)),
         if hit.Some? then Some(Value(hit.value.value)) else None)
  }

  /** The rest, for a secret that is no profile id. */
  function Decrypt<U(!new)>(c: Caches<U>, secret: string, digest: string -> string, decode: string -> Decoded<U>, clock: Clock)
    : (Caches<U>, Reply<U>)
  {
    if StartsWith(secret, "R-") then (c, Message)
    else if !StartsWith(secret, "D-") then (Mark(c, digest(secret), clock.third), Invalid)
    else match decode(secret[2..])
      case Good(user) => (Keep(c, secret, digest(secret), user, clock.third), Value(user))
      case ValueError => (Mark(c, digest(secret), clock.third), Invalid)
      case OtherError => (c, Invalid)
  }

  /** The rest, for a profile id. */
  function Resolve<U(!new)>(c: Caches<U>, secret: string, digest: string -> string, looked: Looked<U>, clock: Clock)
    : (Caches<U>, Reply<U>)
  {
    match looked
    case Found(user) => (Keep(c, secret, digest(secret), user, clock.third), Value(user))
    case LookupMessage => (c, Message)
    case LookupValueError => (Mark(c, digest(secret), clock.third), Invalid)
    case LookupError => (c, Invalid)
  }

  // ---------------------------------------------------------------- every history

  /** One thing that happens: a secret that is no profile id is decrypted; a profile id is looked up in the
      caches, and later its profile arrives; entries under a prefix are dropped. Each reads the clock as it will. */
  datatype Event<U> =
    | Direct(secret: string, clock: Clock)
    | ProfileBegins(secret: string, clock: Clock)
    | ProfileArrives(secret: string, looked: Looked<U>, clock: Clock)
    | Invalidate(prefix: string)

  predicate Legal<U(!new)>(e: Event<U>) {
    match e
    case Direct(secret, _) => !StartsWith(secret, "U-")
    case ProfileBegins(secret, _) => StartsWith(secret, "U-")
    case ProfileArrives(secret, _, _) => StartsWith(secret, "U-")
    case Invalidate(_) => true
  }

  function WithoutPrefix<V(!new)>(d: Store<V>, prefix: string): (r: Store<V>)
    ensures forall e :: e in r <==> e in d && !StartsWith(e.key, prefix)
    ensures |r| <= |d| && (Unique(d) ==> Unique(r))
  {
    if d == [] then []
    else if StartsWith(d[0].key, prefix) then WithoutPrefix(d[1..], prefix)
    else
      var rest := WithoutPrefix(d[1..], prefix);
      assert Unique(d) ==> forall e :: e in rest ==> e.key != d[0].key;
      [d[0]] + rest
  }

  /** What the service is built on. */
  datatype Env<!U> = Env(blank: U, digest: string -> string, decode: string -> Decoded<U>)

  /** `decrypt_user_data` on a secret that is no profile id: the caches after it, and the reply. */
  function DirectCall<U(!new)>(c: Caches<U>, env: Env<U>, secret: string, clock: Clock): (Caches<U>, Reply<U>) {
    var (c', early) := LookUp(c, secret, env.blank, env.digest, clock);
    if early.Some? then (c', early.value) else Decrypt(c', secret, env.digest, env.decode, clock)
  }

  function Next<U(!new)>(c: Caches<U>, env: Env<U>, e: Event<U>): Caches<U> {
    match e
    case Direct(secret, clock) => DirectCall(c, env, secret, clock).0
    case ProfileBegins(secret, clock) => LookUp(c, secret, env.blank, env.digest, clock).0
    case ProfileArrives(secret, looked, clock) => Resolve(c, secret, env.digest, looked, clock).0
    case Invalidate(prefix) => c.(decrypted := WithoutPrefix(c.decrypted, prefix))
  }

  function After<U(!new)>(env: Env<U>, history: seq<Event<U>>, n: nat): Caches<U>
    requires n <= |history|
  {
    if n == 0 then Caches([], []) else Next(After(env, history, n - 1), env, history[n - 1])
  }

  ghost predicate Injective(digest: string -> string) {
    forall s, t :: digest(s) == digest(t) ==> s == t
  }

  /** The secret itself is at fault: another exception than a ValueError is no reason to remember it. */
  predicate Refusable<U(!new)>(secret: string, env: Env<U>) {
    && Plain(secret, env.blank, env.decode) == Invalid
    && !(StartsWith(secret, "D-") && |secret| <= MAX_SECRET_LENGTH && env.decode(secret[2..]) == OtherError)
  }

  /** What the caches hold is what decryption would give. */
  ghost predicate Truthful<U(!new)>(c: Caches<U>, env: Env<U>) {
    && (forall e :: e in c.decrypted && !StartsWith(e.key, "U-") ==>
          e.key != "" && Plain(e.key, env.blank, env.decode) == Value(e.value))
    && (forall s :: !StartsWith(s, "U-") && env.digest(s) in Digests(c.invalid) ==> Refusable(s, env))
  }

  function Digests(d: Store<()>): set<string> { set e | e in d :: e.key }

  lemma MarkTruthful<U(!new)>(c: Caches<U>, env: Env<U>, secret: string, now: real)
    requires Truthful(c, env) && Injective(env.digest)
    requires StartsWith(secret, "U-") || Refusable(secret, env)
    ensures Truthful(Mark(c, env.digest(secret), now), env)
  {
    hide Plain, Insert, Refusable;
    var c' := Mark(c, env.digest(secret), now);
    forall s | !StartsWith(s, "U-") && env.digest(s) in Digests(c'.invalid)
      ensures Refusable(s, env)
    {
      if env.digest(s) in Digests(c.invalid) {
      } else {
        assert env.digest(s) == env.digest(secret);
      }
    }
  }

  lemma FewerTruthful<U(!new)>(c: Caches<U>, c': Caches<U>, env: Env<U>)
    requires Truthful(c, env)
    requires forall e :: e in c'.decrypted ==> e in c.decrypted
    requires forall e :: e in c'.invalid ==> e in c.invalid
    ensures Truthful(c', env)
  {
    hide Plain, Refusable;
    assert Digests(c'.invalid) <= Digests(c.invalid);
  }

  lemma KeepTruthful<U(!new)>(c: Caches<U>, env: Env<U>, secret: string, user: U, now: real)
    requires Truthful(c, env) && secret != ""
    requires StartsWith(secret, "U-") || Plain(secret, env.blank, env.decode) == Value(user)
    ensures Truthful(Keep(c, secret, env.digest(secret), user, now), env)
  {
    hide Plain, Insert, Remove, Refusable;
    var c' := Keep(c, secret, env.digest(secret), user, now);
    assert Digests(c'.invalid) <= Digests(c.invalid);
  }

  lemma LookUpTruthful<U(!new)>(c: Caches<U>, env: Env<U>, secret: string, clock: Clock)
    requires Truthful(c, env) && Injective(env.digest)
    ensures Truthful(LookUp(c, secret, env.blank, env.digest, clock).0, env)
    ensures var early := LookUp(c, secret, env.blank, env.digest, clock).1;
      !StartsWith(secret, "U-") && early.Some? ==> early.value == Plain(secret, env.blank, env.decode)
    ensures LookUp(c, secret, env.blank, env.digest, clock).1.None? ==> 0 < |secret| <= MAX_SECRET_LENGTH
  {
    hide Insert, Remove, Find;
    if |secret| > MAX_SECRET_LENGTH {
      if !StartsWith(secret, "U-") { assert Refusable(secret, env); }
      MarkTruthful(c, env, secret, clock.first);
    } else if secret != "" {
      FewerTruthful(c, LookUp(c, secret, env.blank, env.digest, clock).0, env);
      var e := Alive(c.invalid, env.digest(secret), clock.first);
      if e.Some? { assert e.value.key in Digests(c.invalid); }
    }
  }

  lemma DirectTruthful<U(!new)>(c: Caches<U>, env: Env<U>, secret: string, clock: Clock)
    requires Truthful(c, env) && Injective(env.digest) && !StartsWith(secret, "U-")
    ensures var r := DirectCall(c, env, secret, clock); Truthful(r.0, env) && r.1 == Plain(secret, env.blank, env.decode)
  {
    hide Truthful, LookUp, Mark, Keep;
    LookUpTruthful(c, env, secret, clock);
    var r := LookUp(c, secret, env.blank, env.digest, clock);
    if r.1.None? {
      if Refusable(secret, env) { MarkTruthful(r.0, env, secret, clock.third); }
      if Plain(secret, env.blank, env.decode).Value? {
        KeepTruthful(r.0, env, secret, Plain(secret, env.blank, env.decode).user, clock.third);
      }
    }
  }

  lemma ResolveTruthful<U(!new)>(c: Caches<U>, env: Env<U>, secret: string, looked: Looked<U>, clock: Clock)
    requires Truthful(c, env) && Injective(env.digest) && Legal(ProfileArrives(secret, looked, clock))
    ensures Truthful(Resolve(c, secret, env.digest, looked, clock).0, env)
  {
    hide Truthful, Mark, Keep;
    MarkTruthful(c, env, secret, clock.third);
    if looked.Found? { KeepTruthful(c, env, secret, looked.user, clock.third); }
  }

  lemma NextTruthful<U(!new)>(c: Caches<U>, env: Env<U>, e: Event<U>)
    requires Truthful(c, env) && Injective(env.digest) && Legal(e)
    ensures Truthful(Next(c, env, e), env)
  {
    hide Truthful, LookUp, DirectCall, Resolve;
    match e
    case Direct(secret, clock) => DirectTruthful(c, env, secret, clock);
    case ProfileBegins(secret, clock) => LookUpTruthful(c, env, secret, clock);
    case ProfileArrives(secret, looked, clock) => ResolveTruthful(c, env, secret, looked, clock);
    case Invalidate(prefix) => FewerTruthful(c, Next(c, env, e), env);
  }

  lemma {:induction false} AlwaysTruthful<U(!new)>(env: Env<U>, history: seq<Event<U>>, n: nat)
    requires n <= |history| && Injective(env.digest) && forall e :: e in history ==> Legal(e)
    ensures Truthful(After(env, history, n), env)
    decreases n
  {
    hide Truthful, Next;
    if n == 0 {
      EmptyTruthful(env);
    } else {
      AlwaysTruthful(env, history, n - 1);
      assert Legal(history[n - 1]);
      NextTruthful(After(env, history, n - 1), env, history[n - 1]);
    }
  }

  lemma EmptyTruthful<U(!new)>(env: Env<U>)
    ensures Truthful(Caches([], []), env)
  {}

  /** For every history of calls, profiles and clock readings: a secret that is no profile id gets the
      reply that decryption without caches gives. */
  lemma Transparent<U(!new)>(env: Env<U>, history: seq<Event<U>>, n: nat, secret: string, clock: Clock)
    requires n <= |history| && Injective(env.digest) && (forall e :: e in history ==> Legal(e))
    requires !StartsWith(secret, "U-")
    ensures DirectCall(After(env, history, n), env, secret, clock).1 == Plain(secret, env.blank, env.decode)
  {
    hide Truthful, DirectCall, After;
    AlwaysTruthful(env, history, n);
    DirectTruthful(After(env, history, n), env, secret, clock);
  }

  lemma LookUpSized<U(!new)>(c: Caches<U>, env: Env<U>, secret: string, clock: Clock)
    requires Sized(c)
    ensures Sized(LookUp(c, secret, env.blank, env.digest, clock).0)
  {
    hide Insert, Remove, Find, Unique;
  }

  lemma StoredSized<U(!new)>(c: Caches<U>, env: Env<U>, secret: string, user: U, now: real)
    requires Sized(c)
    ensures Sized(Mark(c, env.digest(secret), now)) && Sized(Keep(c, secret, env.digest(secret), user, now))
  {
    hide Insert, Remove, Find, Unique;
  }

  lemma MarkSized<U(!new)>(c: Caches<U>, env: Env<U>, secret: string, now: real)
    requires Sized(c)
    ensures Sized(Mark(c, env.digest(secret), now))
  {
    hide Insert, Unique;
  }

  lemma DirectSized<U(!new)>(c: Caches<U>, env: Env<U>, secret: string, clock: Clock)
    requires Sized(c)
    ensures Sized(DirectCall(c, env, secret, clock).0)
  {
    hide Sized, LookUp, Mark, Keep;
    LookUpSized(c, env, secret, clock);
    var r := LookUp(c, secret, env.blank, env.digest, clock);
    MarkSized(r.0, env, secret, clock.third);
    if |secret| >= 2 && env.decode(secret[2..]).Good? {
      StoredSized(r.0, env, secret, env.decode(secret[2..]).user, clock.third);
    }
  }

  lemma ResolveSized<U(!new)>(c: Caches<U>, env: Env<U>, secret: string, looked: Looked<U>, clock: Clock)
    requires Sized(c)
    ensures Sized(Resolve(c, secret, env.digest, looked, clock).0)
  {
    hide Sized, Mark, Keep;
    MarkSized(c, env, secret, clock.third);
    if looked.Found? { StoredSized(c, env, secret, looked.user, clock.third); }
  }

  lemma NextSized<U(!new)>(c: Caches<U>, env: Env<U>, e: Event<U>)
    requires Sized(c)
    ensures Sized(Next(c, env, e))
  {
    hide Sized, LookUp, DirectCall, Resolve, WithoutPrefix;
    match e
    case Direct(secret, clock) => DirectSized(c, env, secret, clock);
    case ProfileBegins(secret, clock) => LookUpSized(c, env, secret, clock);
    case ProfileArrives(secret, looked, clock) => ResolveSized(c, env, secret, looked, clock);
    case Invalidate(prefix) => InvalidateSized(c, prefix);
  }

  /** And the caches stay within their sizes. */
  lemma {:induction false} AlwaysSized<U(!new)>(env: Env<U>, history: seq<Event<U>>, n: nat)
    requires n <= |history|
    ensures Sized(After(env, history, n))
    decreases n
  {
    hide Sized, Next;
    if n == 0 {
      EmptySized<U>();
    } else {
      AlwaysSized(env, history, n - 1);
      NextSized(After(env, history, n - 1), env, history[n - 1]);
    }
  }

  lemma InvalidateSized<U(!new)>(c: Caches<U>, prefix: string)
    requires Sized(c)
    ensures Sized(c.(decrypted := WithoutPrefix(c.decrypted, prefix)))
  {
    hide Unique, WithoutPrefix;
  }

  lemma EmptySized<U(!new)>()
    ensures Sized<U>(Caches([], []))
  {}

  /** A profile id, though, may get an old answer for as long as the entry lives. */
  lemma ProfileMayBeStale(env: Env<int>, secret: string, clock: Clock, was: int)
    requires StartsWith(secret, "U-") && |secret| <= MAX_SECRET_LENGTH && clock.second < clock.third + DECRYPT_TTL as real
    ensures var history := [ProfileArrives(secret, Found(was), clock)];
      LookUp(After(env, history, 1), secret, env.blank, env.digest, clock).1 == Some(Value(was))
  {
    var history := [ProfileArrives(secret, Found(was), clock)];
    var c := After(env, history, 0);
    assert c == Caches([], []);
    assert After(env, history, 1) == Next(c, env, history[0]);
    var e := Entry(secret, clock.third + DECRYPT_TTL as real, was);
    assert Insert<int>([], DECRYPT_MAX, clock.third, e) == [e];
    assert Remove<()>([], env.digest(secret)) == [];
  }

  /** What decryption without caches answers to a secret that is no profile id: a value for no secret at all, and for a
      direct one that can be decoded; a message for one of the old kind; an error for any other. */
  lemma PlainReplies<U(!new)>(secret: string, blank: U, decode: string -> Decoded<U>)
    requires !StartsWith(secret, "U-")
    ensures var r := Plain(secret, blank, decode);
      var direct := StartsWith(secret, "D-") && |secret| <= MAX_SECRET_LENGTH;
      && (forall u :: r == Value(u) <==> (secret == "" && u == blank) || (direct && decode(secret[2..]) == Good(u)))
      && (r == Message <==> StartsWith(secret, "R-") && |secret| <= MAX_SECRET_LENGTH)
  {
    assert StartsWith(secret, "D-") ==> secret[0] == 'D';
    assert StartsWith(secret, "R-") ==> secret[0] == 'R';
  }

  // ---------------------------------------------------------------- profile ids

  /** The reply to a profile id once its look-up has ended: the profile itself, the message for the user, or an error. */
  lemma ResolveReplies<U(!new)>(c: Caches<U>, env: Env<U>, secret: string, looked: Looked<U>, clock: Clock)
    ensures var reply := Resolve(c, secret, env.digest, looked, clock).1;
      && (forall u :: reply == Value(u) <==> looked == Found(u))
      && (reply == Message <==> looked == LookupMessage)
      && (reply == Invalid <==> looked == LookupValueError || looked == LookupError)
  {}

  /** At step `i` the look-up of that id came back with a profile; or was refused. */
  ghost predicate FoundAt<U(!new)>(history: seq<Event<U>>, i: nat, secret: string, user: U, expires: real) {
    && i < |history| && history[i].ProfileArrives? && history[i].secret == secret
    && history[i].looked == Found(user) && expires == history[i].clock.third + DECRYPT_TTL as real
  }

  ghost predicate RefusedAt<U(!new)>(history: seq<Event<U>>, i: nat, secret: string, expires: real) {
    && i < |history| && history[i].ProfileArrives? && history[i].secret == secret
    && history[i].looked == LookupValueError && expires == history[i].clock.third + INVALID_TTL as real
  }

  ghost predicate FoundBefore<U(!new)>(history: seq<Event<U>>, n: nat, secret: string, user: U, expires: real) {
    exists i: nat :: i < n && FoundAt(history, i, secret, user, expires)
  }

  ghost predicate RefusedBefore<U(!new)>(history: seq<Event<U>>, n: nat, secret: string, expires: real) {
    exists i: nat :: i < n && RefusedAt(history, i, secret, expires)
  }

  predicate IsProfileId(secret: string) { StartsWith(secret, "U-") && |secret| <= MAX_SECRET_LENGTH }

  /** What the caches hold of profile ids was looked up. */
  ghost predicate Sourced<U(!new)>(c: Caches<U>, env: Env<U>, history: seq<Event<U>>, n: nat) {
    && (forall e :: e in c.decrypted && StartsWith(e.key, "U-") ==> FoundBefore(history, n, e.key, e.value, e.expires))
    && (forall e, s :: e in c.invalid && IsProfileId(s) && env.digest(s) == e.key ==> RefusedBefore(history, n, s, e.expires))
  }

  lemma SourcedLater<U(!new)>(c: Caches<U>, c': Caches<U>, env: Env<U>, history: seq<Event<U>>, n: nat)
    requires Sourced(c, env, history, n)
    requires forall e :: e in c'.decrypted && StartsWith(e.key, "U-") ==> e in c.decrypted
    requires forall e :: e in c'.invalid ==> e in c.invalid || forall s :: IsProfileId(s) ==> env.digest(s) != e.key
    ensures Sourced(c', env, history, n + 1)
  {
    hide IsProfileId, FoundAt, RefusedAt;
    forall e | e in c'.decrypted && StartsWith(e.key, "U-") ensures FoundBefore(history, n + 1, e.key, e.value, e.expires) {
      assert FoundBefore(history, n, e.key, e.value, e.expires);
    }
    forall e, s | e in c'.invalid && IsProfileId(s) && env.digest(s) == e.key ensures RefusedBefore(history, n + 1, s, e.expires) {
      assert RefusedBefore(history, n, s, e.expires);
    }
  }

  lemma DirectSourced<U(!new)>(c: Caches<U>, env: Env<U>, history: seq<Event<U>>, n: nat, secret: string, clock: Clock)
    requires Sourced(c, env, history, n) && Injective(env.digest) && !StartsWith(secret, "U-")
    ensures Sourced(DirectCall(c, env, secret, clock).0, env, history, n + 1)
  {
    hide Sourced, Insert, Remove, Find;
    SourcedLater(c, DirectCall(c, env, secret, clock).0, env, history, n);
  }

  lemma BeginSourced<U(!new)>(c: Caches<U>, env: Env<U>, history: seq<Event<U>>, n: nat, secret: string, clock: Clock)
    requires Sourced(c, env, history, n) && Injective(env.digest)
    ensures Sourced(LookUp(c, secret, env.blank, env.digest, clock).0, env, history, n + 1)
  {
    hide Sourced, Insert, Remove, Find;
    SourcedLater(c, LookUp(c, secret, env.blank, env.digest, clock).0, env, history, n);
  }

  lemma FoundSourced<U(!new)>(c: Caches<U>, env: Env<U>, history: seq<Event<U>>, n: nat)
    requires Sourced(c, env, history, n) && n < |history| && history[n].ProfileArrives? && history[n].looked.Found?
    ensures Sourced(Next(c, env, history[n]), env, history, n + 1)
  {
    hide Insert, Remove, IsProfileId;
    var (secret, user, clock) := (history[n].secret, history[n].looked.user, history[n].clock);
    var c' := Next(c, env, history[n]);
    forall e | e in c'.decrypted && StartsWith(e.key, "U-") ensures FoundBefore(history, n + 1, e.key, e.value, e.expires) {
      if e in c.decrypted { assert FoundBefore(history, n, e.key, e.value, e.expires); }
      else { assert FoundAt(history, n, secret, user, e.expires); }
    }
    forall e, s | e in c'.invalid && IsProfileId(s) && env.digest(s) == e.key ensures RefusedBefore(history, n + 1, s, e.expires) {
      assert RefusedBefore(history, n, s, e.expires);
    }
  }

  lemma RefusedSourced<U(!new)>(c: Caches<U>, env: Env<U>, history: seq<Event<U>>, n: nat)
    requires Sourced(c, env, history, n) && Injective(env.digest) && n < |history|
    requires history[n].ProfileArrives? && history[n].looked == LookupValueError
    ensures Sourced(Next(c, env, history[n]), env, history, n + 1)
  {
    hide Insert, Remove, IsProfileId;
    var (secret, clock) := (history[n].secret, history[n].clock);
    var c' := Next(c, env, history[n]);
    forall e | e in c'.decrypted && StartsWith(e.key, "U-") ensures FoundBefore(history, n + 1, e.key, e.value, e.expires) {
      assert FoundBefore(history, n, e.key, e.value, e.expires);
    }
    forall e, s | e in c'.invalid && IsProfileId(s) && env.digest(s) == e.key ensures RefusedBefore(history, n + 1, s, e.expires) {
      if e in c.invalid { assert RefusedBefore(history, n, s, e.expires); }
      else { assert s == secret && RefusedAt(history, n, secret, e.expires); }
    }
  }

  lemma NextSourced<U(!new)>(c: Caches<U>, env: Env<U>, history: seq<Event<U>>, n: nat)
    requires Sourced(c, env, history, n) && Injective(env.digest) && n < |history| && Legal(history[n])
    ensures Sourced(Next(c, env, history[n]), env, history, n + 1)
  {
    hide Sourced, LookUp, DirectCall, Injective;
    match history[n]
    case Direct(secret, clock) => DirectSourced(c, env, history, n, secret, clock);
    case ProfileBegins(secret, clock) => BeginSourced(c, env, history, n, secret, clock);
    case ProfileArrives(secret, looked, clock) =>
      if looked.Found? { FoundSourced(c, env, history, n); }
      else if looked.LookupValueError? { RefusedSourced(c, env, history, n); }
      else { SourcedLater(c, c, env, history, n); }
    case Invalidate(prefix) => SourcedLater(c, Next(c, env, history[n]), env, history, n);
  }

  lemma {:induction false} AlwaysSourced<U(!new)>(env: Env<U>, history: seq<Event<U>>, n: nat)
    requires n <= |history| && Injective(env.digest) && forall e :: e in history ==> Legal(e)
    ensures Sourced(After(env, history, n), env, history, n)
    decreases n
  {
    hide Sourced, Next, Injective;
    if n == 0 {
      NothingSourced(env, history);
    } else {
      AlwaysSourced(env, history, n - 1);
      assert Legal(history[n - 1]);
      NextSourced(After(env, history, n - 1), env, history, n - 1);
    }
  }

  lemma NothingSourced<U(!new)>(env: Env<U>, history: seq<Event<U>>)
    ensures Sourced(Caches([], []), env, history, 0)
  {}

  /** After every history, what the caches answer to a profile id was looked up for that very id, and has not expired: a
      profile that was found, or a refusal. */
  lemma ProfileAnswered<U(!new)>(env: Env<U>, history: seq<Event<U>>, n: nat, secret: string, clock: Clock)
    requires n <= |history| && Injective(env.digest) && (forall e :: e in history ==> Legal(e)) && IsProfileId(secret)
    ensures var early := LookUp(After(env, history, n), secret, env.blank, env.digest, clock).1;
      early.Some? ==>
        if early.value.Value? then
          exists i: nat, expires: real ::
            i < n && clock.second < expires && FoundAt(history, i, secret, early.value.user, expires)
        else
          early.value == Invalid
          && exists i: nat, expires: real :: i < n && clock.first < expires && RefusedAt(history, i, secret, expires)
  {
    hide After, Injective, FoundAt, RefusedAt;
    var c := After(env, history, n);
    AlwaysSourced(env, history, n);
    var early := LookUp(c, secret, env.blank, env.digest, clock).1;
    if early.Some? {
      if early.value.Value? {
        var e := Alive(c.decrypted, secret, clock.second).value;
        var i: nat :| i < n && FoundAt(history, i, secret, e.value, e.expires);
      } else {
        var e := Alive(c.invalid, env.digest(secret), clock.first).value;
        var i: nat :| i < n && RefusedAt(history, i, secret, e.expires);
      }
    }
  }

  lemma {:induction false} FindUnique<V(!new)>(d: Store<V>, e: Entry<V>)
    requires Unique(d) && e in d
    ensures Find(d, e.key) == Some(e)
    decreases d
  {
    if d[0] != e {
      assert forall i, j :: 0 <= i < j < |d[1..]| ==> d[1..][i].key == d[i + 1].key && d[1..][j].key == d[j + 1].key;
      FindUnique(d[1..], e);
    }
  }

  /** A profile that was found is the answer from then on, as long as its entry lives. */
  lemma FoundIsServed<U(!new)>(c: Caches<U>, env: Env<U>, secret: string, user: U, clock: Clock, later: Clock)
    requires Sized(c) && IsProfileId(secret) && later.second < clock.third + DECRYPT_TTL as real
    ensures LookUp(Resolve(c, secret, env.digest, Found(user), clock).0, secret, env.blank, env.digest, later).1 == Some(Value(user))
  {
    hide Insert, Remove, Unique;
    var c' := Resolve(c, secret, env.digest, Found(user), clock).0;
    FindUnique(c'.decrypted, Entry(secret, clock.third + DECRYPT_TTL as real, user));
  }

  /** So is the value of a direct secret once it has been decoded. */
  lemma DecodedIsServed<U(!new)>(c: Caches<U>, env: Env<U>, secret: string, user: U, clock: Clock, later: Clock)
    requires Sized(c) && StartsWith(secret, "D-") && env.decode(secret[2..]) == Good(user)
    requires LookUp(c, secret, env.blank, env.digest, clock).1.None? && later.second < clock.third + DECRYPT_TTL as real
    ensures LookUp(DirectCall(c, env, secret, clock).0, secret, env.blank, env.digest, later).1 == Some(Value(user))
  {
    hide Insert, Remove, Unique, DropExpired;
    LookUpSized(c, env, secret, clock);
    var c' := DirectCall(c, env, secret, clock).0;
    assert StartsWith(secret, "D-") ==> secret[0] == 'D';
    FindUnique(c'.decrypted, Entry(secret, clock.third + DECRYPT_TTL as real, user));
  }

  /** And a secret at fault is refused without another attempt as long as its mark lives. */
  lemma RefusedIsServed<U(!new)>(c: Caches<U>, env: Env<U>, secret: string, clock: Clock, later: Clock)
    requires Sized(c) && !StartsWith(secret, "U-") && |secret| <= MAX_SECRET_LENGTH && Refusable(secret, env)
    requires LookUp(c, secret, env.blank, env.digest, clock).1.None? && later.first < clock.third + INVALID_TTL as real
    ensures LookUp(DirectCall(c, env, secret, clock).0, secret, env.blank, env.digest, later).1 == Some(Invalid)
  {
    hide Insert, Remove, Unique, DropExpired;
    LookUpSized(c, env, secret, clock);
    var c' := DirectCall(c, env, secret, clock).0;
    FindUnique(c'.invalid, Entry(env.digest(secret), clock.third + INVALID_TTL as real, ()));
  }

  /** As is a profile id whose look-up was refused with a ValueError. */
  lemma RefusedProfileIsServed<U(!new)>(c: Caches<U>, env: Env<U>, secret: string, clock: Clock, later: Clock)
    requires Sized(c) && IsProfileId(secret) && later.first < clock.third + INVALID_TTL as real
    ensures var c' := Resolve(c, secret, env.digest, LookupValueError, clock).0;
      LookUp(c', secret, env.blank, env.digest, later).1 == Some(Invalid)
  {
    hide Insert, Remove, Unique, DropExpired;
    var c' := Resolve(c, secret, env.digest, LookupValueError, clock).0;
    FindUnique(c'.invalid, Entry(env.digest(secret), clock.third + INVALID_TTL as real, ()));
  }

  /** A full cache gives up its oldest live entry, and no other. */
  lemma InsertKeeps<V(!new)>(d: Store<V>, cap: nat, now: real, e: Entry<V>, f: Entry<V>)
    requires cap > 0 && f in d && f.expires > now && f.key != e.key
    ensures var live := Unexpired(d, now);
      f in Insert(d, cap, now, e) || (|live| >= cap && live != [] && f == live[0])
  {
    hide Unexpired, Assign;
    var live := Unexpired(d, now);
    assert f in live;
    if |live| >= cap && f != live[0] {
      var i :| 0 <= i < |live| && live[i] == f;
      assert live[1..][i - 1] == f;
    }
  }

  // ---------------------------------------------------------------- the object

  function Without<V(!new)>(d: Store<V>, keys: set<string>): Store<V> {
    if d == [] then []
    else if d[0].key in keys then Without(d[1..], keys)
    else [d[0]] + Without(d[1..], keys)
  }

  lemma {:induction false} RemoveMore<V(!new)>(d: Store<V>, keys: set<string>, key: string)
    ensures Remove(Without(d, keys), key) == Without(d, keys + {key})
    decreases d
  {
    if d != [] { RemoveMore(d[1..], keys, key); }
  }

  lemma {:induction false} WithoutNone<V(!new)>(d: Store<V>)
    ensures Without(d, {}) == d
    decreases d
  {
    if d != [] { WithoutNone(d[1..]); }
  }

  function Keys(ks: seq<string>): set<string> { set k | k in ks }

  /** Pops the keys one by one. */
  method PopAll<V(!new)>(d: Store<V>, keys: seq<string>) returns (r: Store<V>)
    ensures r == Without(d, Keys(keys))
  {
    r := d;
    assert Keys(keys[..0]) == {};
    WithoutNone(d);
    for i := 0 to |keys|
      invariant r == Without(d, Keys(keys[..i]))
    {
      RemoveMore(d, Keys(keys[..i]), keys[i]);
      assert Keys(keys[..i + 1]) == Keys(keys[..i]) + {keys[i]};
      r := Remove(r, keys[i]);
    }
    assert keys[..|keys|] == keys;
  }

  /** Pops what has expired: the keys are collected first. */
  method EvictExpired<V(!new)>(d: Store<V>, now: real) returns (r: Store<V>)
    requires Unique(d)
    ensures r == Unexpired(d, now)
  {
    var expired: seq<string> := [];
    for i := 0 to |d|
      invariant forall k :: k in expired <==> exists j :: 0 <= j < i && d[j].key == k && d[j].expires <= now
    {
      if d[i].expires <= now {
        expired := expired + [d[i].key];
      }
    }
    r := PopAll(d, expired);
    WithoutExpired(d, now, Keys(expired));
  }

  lemma {:induction false} WithoutExpired<V(!new)>(d: Store<V>, now: real, keys: set<string>)
    requires forall j :: 0 <= j < |d| ==> (d[j].key in keys <==> d[j].expires <= now)
    ensures Without(d, keys) == Unexpired(d, now)
    decreases d
  {
    if d != [] {
      forall j | 0 <= j < |d[1..]| ensures d[1..][j].key in keys <==> d[1..][j].expires <= now {
        assert d[1..][j] == d[j + 1];
      }
      WithoutExpired(d[1..], now, keys);
    }
  }

  lemma {:induction false} WithoutStarting<V(!new)>(d: Store<V>, prefix: string, keys: set<string>)
    requires forall j :: 0 <= j < |d| ==> (d[j].key in keys <==> StartsWith(d[j].key, prefix))
    ensures Without(d, keys) == WithoutPrefix(d, prefix)
    decreases d
  {
    if d != [] {
      forall j | 0 <= j < |d[1..]| ensures d[1..][j].key in keys <==> StartsWith(d[1..][j].key, prefix) {
        assert d[1..][j] == d[j + 1];
      }
      WithoutStarting(d[1..], prefix, keys);
    }
  }

  class CryptoUtils<!U(!new)> {
    const env: Env<U>
    var decrypted: Store<U>
    var invalid: Store<()>

    ghost function Contents(): Caches<U>
      reads this
    {
      Caches(decrypted, invalid)
    }

    constructor (env: Env<U>)
      ensures this.env == env && Contents() == Caches([], [])
    {
      this.env := env;
      decrypted, invalid := [], [];
    }

    /** `_get_cached_decrypted_user_data`. */
    method GetCached(secret: string, now: real) returns (hit: Option<U>)
      requires secret != ""
      modifies this`decrypted
      ensures decrypted == DropExpired(old(decrypted), secret, now)
      ensures var e := Alive(old(decrypted), secret, now); hit == if e.Some? then Some(e.value.value) else None
    {
      var e := Find(decrypted, secret);
      if e.None? {
        return None;
      }
      if e.value.expires <= now {
        decrypted := Remove(decrypted, secret);
        return None;
      }
      return Some(e.value.value);
    }

    /** `_cache_decrypted_user_data`. */
    method CacheDecrypted(secret: string, user: U, now: real)
      requires secret != "" && Unique(decrypted)
      modifies this`decrypted
      ensures decrypted == Insert(old(decrypted), DECRYPT_MAX, now, Entry(secret, now + DECRYPT_TTL as real, user))
    {
      decrypted := EvictExpired(decrypted, now);
      if |decrypted| >= DECRYPT_MAX {
        decrypted := decrypted[1..];
      }
      decrypted := Assign(decrypted, Entry(secret, now + DECRYPT_TTL as real, user));
    }

    /** `_invalidate_decrypt_cache_prefix`. */
    method InvalidatePrefix(prefix: string)
      modifies this`decrypted
      ensures decrypted == WithoutPrefix(old(decrypted), prefix)
    {
      var d := decrypted;
      var matching: seq<string> := [];
      for i := 0 to |d|
        invariant forall k :: k in matching <==> exists j :: 0 <= j < i && d[j].key == k && StartsWith(k, prefix)
      {
        if StartsWith(d[i].key, prefix) {
          matching := matching + [d[i].key];
        }
      }
      decrypted := PopAll(d, matching);
      WithoutStarting(d, prefix, Keys(matching));
    }

    /** `_is_known_invalid_secret`. */
    method IsKnownInvalid(secret: string, now: real) returns (known: bool)
      modifies this`invalid
      ensures invalid == DropExpired(old(invalid), env.digest(secret), now)
      ensures known == Alive(old(invalid), env.digest(secret), now).Some?
    {
      var d := env.digest(secret);
      var e := Find(invalid, d);
      if e.None? {
        return false;
      }
      if e.value.expires <= now {
        invalid := Remove(invalid, d);
        return false;
      }
      return true;
    }

    /** `_mark_invalid_secret`. */
    method MarkInvalid(secret: string, now: real) returns (isNew: bool)
      requires Unique(invalid)
      modifies this`invalid
      ensures Contents() == Mark(old(Contents()), env.digest(secret), now)
      ensures isNew == Alive(old(invalid), env.digest(secret), now).None?
    {
      var d := env.digest(secret);
      ghost var before := invalid;
      invalid := EvictExpired(invalid, now);
      var already := Find(invalid, d).Some?;
      AliveIff(before, d, now);
      if |invalid| >= INVALID_MAX {
        invalid := invalid[1..];
      }
      invalid := Assign(invalid, Entry(d, now + INVALID_TTL as real, ()));
      return !already;
    }

    /** `_clear_invalid_secret`. */
    method ClearInvalid(secret: string)
      modifies this`invalid
      ensures invalid == Remove(old(invalid), env.digest(secret))
    {
      invalid := Remove(invalid, env.digest(secret));
    }

    /** The beginning of `decrypt_user_data`: the reply, if the caches have one. */
    method Begin(secret: string, clock: Clock) returns (early: Option<Reply<U>>)
      requires Sized(Contents())
      modifies this
      ensures (Contents(), early) == LookUp(old(Contents()), secret, env.blank, env.digest, clock)
    {
      if secret == "" {
        return Some(Value(env.blank));
      }
      if |secret| > MAX_SECRET_LENGTH {
        var _ := MarkInvalid(secret, clock.first);
        return Some(Invalid);
      }
      var known := IsKnownInvalid(secret, clock.first);
      if known {
        return Some(Invalid);
      }
      var hit := GetCached(secret, clock.second);
      return if hit.Some? then Some(Value(hit.value)) else None;
    }

    method Stored(secret: string, user: U, clock: Clock)
      requires secret != "" && Sized(Contents())
      modifies this
      ensures Contents() == Keep(old(Contents()), secret, env.digest(secret), user, clock.third)
    {
      ClearInvalid(secret);
      CacheDecrypted(secret, user, clock.third);
    }

    /** `decrypt_user_data` for a secret that is no profile id. */
    method DecryptUserData(secret: string, clock: Clock) returns (reply: Reply<U>)
      requires Sized(Contents()) && !StartsWith(secret, "U-")
      modifies this
      ensures (Contents(), reply) == DirectCall(old(Contents()), env, secret, clock) && Sized(Contents())
    {
      hide LookUp, Insert, Remove, Unique;
      LookUpSized(Contents(), env, secret, clock);
      DirectSized(Contents(), env, secret, clock);
      hide Sized;
      var early := Begin(secret, clock);
      if early.Some? {
        return early.value;
      }
      if StartsWith(secret, "R-") {
        return Message;
      }
      if !StartsWith(secret, "D-") {
        SizedUnique(Contents());
        var _ := MarkInvalid(secret, clock.third);
        return Invalid;
      }
      var decoded := env.decode(secret[2..]);
      match decoded
      case Good(user) =>
        Stored(secret, user, clock);
        return Value(user);
      case ValueError =>
        SizedUnique(Contents());
        var _ := MarkInvalid(secret, clock.third);
        return Invalid;
      case OtherError =>
        return Invalid;
    }

    /** `decrypt_user_data` for a profile id, once the profile has been looked up. */
    method ProfileArrived(secret: string, looked: Looked<U>, clock: Clock) returns (reply: Reply<U>)
      requires Sized(Contents()) && secret != ""
      modifies this
      ensures (Contents(), reply) == Resolve(old(Contents()), secret, env.digest, looked, clock)
    {
      match looked
      case Found(user) =>
        Stored(secret, user, clock);
        return Value(user);
      case LookupMessage =>
        return Message;
      case LookupValueError =>
        var _ := MarkInvalid(secret, clock.third);
        return Invalid;
      case LookupError =>
        return Invalid;
    }
  }

  lemma SizedUnique<U(!new)>(c: Caches<U>)
    requires Sized(c)
    ensures Unique(c.decrypted) && Unique(c.invalid)
  {}

  lemma {:induction false} AliveIff<V(!new)>(d: Store<V>, key: string, now: real)
    requires Unique(d)
    ensures Find(Unexpired(d, now), key).Some? <==> Alive(d, key, now).Some?
  {
    var e := Find(d, key);
    if e.Some? {
      assert forall f :: f in d && f.key == key ==> f == e.value;
    }
  }
}
