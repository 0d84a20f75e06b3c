/** Whether the keyword recompute converges to the keywords in the database (backend/src/state.rs:776-789): over
    the steps of KeywordLease, when an invocation left to itself publishes the live version, and when none
    ever does. */
module KeywordConverge {
  import opened KeywordLease
  import opened Wrappers

  /** The state after `labels`; None if one of them is not possible. */
  function Play(c: Config, s: State, labels: seq<Label>): Option<State>
    decreases |labels|
  {
    if labels == [] then Some(s)
    else
      match Step(c, s, labels[0])
      case None => None
      case Some(s') => Play(c, s', labels[1..])
  }

  predicate Published(s: State, ver: Version) {
    s.marker == Some(ver)
  }

  /** `recompute_superseded` finds no newer version than `ver`. */
  predicate Current(s: State, ver: Version) {
    s.request == Some(ver) || (s.request == None && s.live == ver)
  }

  // ---------------------------------------------------------------- an invocation left to itself

  /** Every read, statement and reply arrives. */
  predicate Intact(a: Action) {
    match a
    case Load(ok) => ok
    case CheckMarker(ok) => ok
    case ClaimError => false
    case ClaimReply(ok) => ok
    case Recheck(ok) => ok
    case CheckRequest(ok) => ok
    case ConfirmError => false
    case ConfirmReply(ok) => ok
    case ReadMax(ok, _) => ok
    case RunBatch(ok, _) => ok
    case CheckBatch(requestOk, liveOk) => requestOk && liveOk
    case RenewError => false
    case RenewTimeout => false
    case CheckSwept(requestOk, liveOk) => requestOk && liveOk
    case PublishError => false
    case PublishReply(ok) => ok
    case ReleaseError => false
    case _ => true
  }

  /** Only `p` acts, undisturbed, and time passes. */
  predicate Undisturbed(p: Pid, labels: seq<Label>) {
    forall l :: l in labels ==> Own(p, l)
  }

  predicate Own(p: Pid, l: Label) {
    l.Advance? || (l.Act? && l.pid == p && Intact(l.action))
  }

  /** A step of the invocation itself, not of the renewals beside its sweep. */
  predicate IsWork(l: Label) {
    l.Act? && !l.action.Tick? && !l.action.RenewRun? && !l.action.RenewReply?
  }

  function Work(labels: seq<Label>): nat {
    if labels == [] then 0 else (if IsWork(labels[0]) then 1 else 0) + Work(labels[1..])
  }

  /** The version an attempt is for. */
  function VersionOf(phase: Phase): Option<Version> {
    match phase
    case Begin => None
    case Releasing(_) => None
    case Finished => None
    case _ => Some(phase.ver)
  }

  predicate Loyal(s: State, p: Pid, ver: Version) {
    p in s.procs && (VersionOf(s.procs[p].phase) == None || VersionOf(s.procs[p].phase) == Some(ver))
  }

  predicate SweepOnTrack(sw: Sweep, max: Option<int>) {
    && (sw.renewal.InFlight? && sw.renewal.effect.Some? ==> sw.renewal.effect.value.touched)
    && (sw.progress.NeedMax? || max == Some(sw.progress.maxId))
  }

  /** Nothing stands between the invocation and its publication of `ver`. */
  predicate OnTrack(c: Config, s: State, p: Pid, ver: Version, max: Option<int>)
    requires p in s.procs
  {
    match s.procs[p].phase
    case Begin => Stale(c, s) && s.live == ver
    case Loaded(_) => Stale(c, s)
    case WantClaim(_) => Stale(c, s)
    case ClaimSent(_, won) => won && Owns(s, p)
    case ConfirmSent(_, effect) => effect.touched && Owns(s, p)
    case Sweeping(_, sw) => Owns(s, p) && SweepOnTrack(sw, max)
    case Swept(_, ok) => ok && Owns(s, p)
    case PublishSent(_, _) => false
    case Releasing(_) => false
    case Finished => false
    case _ => Owns(s, p)
  }

  ghost predicate Good(c: Config, s: State, p: Pid, ver: Version, max: Option<int>) {
    && Loyal(s, p, ver)
    && (Published(s, ver) || (Current(s, ver) && IsMax(s.flags, max) && OnTrack(c, s, p, ver, max)))
  }

  /** Batches left from `fromId` on. */
  function Left(maxId: int, fromId: int): nat
    decreases maxId - fromId
  {
    if fromId + BATCH_SIZE >= maxId then 1 else 1 + Left(maxId, fromId + BATCH_SIZE)
  }

  /** Work left until publication. */
  function ToDo(max: Option<int>, phase: Phase): nat {
    var sweep := 3 + if max.None? then 0 else 2 * Left(max.value, 0);
    match phase
    case Begin => sweep + 10
    case Loaded(_) => sweep + 9
    case WantClaim(_) => sweep + 8
    case ClaimSent(_, _) => sweep + 7
    case Claimed(_) => sweep + 6
    case Rechecked(_) => sweep + 5
    case Confirming(_) => sweep + 4
    case ConfirmSent(_, _) => sweep + 3
    case Confirmed(_, _) => sweep + 2
    case Timer(_, _, _) => sweep + 1
    case Sweeping(_, sw) => (
      match sw.progress
      case NeedMax => sweep
      case Batch(maxId, fromId) => 2 + 2 * Left(maxId, fromId)
      case Check(maxId, fromId) => 1 + 2 * Left(maxId, fromId))
    case Swept(_, _) => 2
    case Publishing(_) => 1
    case _ => 0
  }

  lemma SameMax(flags: map<int, Version>, fromId: int, ver: Version, max: Option<int>)
    requires IsMax(flags, max)
    ensures IsMax(Flagged(flags, fromId, ver), max)
  {
    assert forall k :: k in Flagged(flags, fromId, ver) <==> k in flags;
  }

  lemma OneMax(flags: map<int, Version>, max: Option<int>, max': Option<int>)
    requires IsMax(flags, max) && IsMax(flags, max')
    ensures max == max'
  {}

  /** A step of an invocation on its track: it has published, or it is still on it, with as much work left as
      before, or one less after a step of its work. */
  ghost predicate Closer(c: Config, s: State, p: Pid, l: Label, s': State, ver: Version, max: Option<int>)
    requires p in s.procs
  {
    && s'.live == s.live && s'.request == s.request && s'.procs.Keys == s.procs.Keys && Good(c, s', p, ver, max)
    && (s'.marker == s.marker || Published(s', ver))
    && (Published(s', ver)
        || ToDo(max, s'.procs[p].phase) + (if IsWork(l) then 1 else 0) == ToDo(max, s.procs[p].phase))
    && (s.procs[p].phase.Publishing? || s'.marker == s.marker)
  }

  /** The invocation is at work on `ver`; once it has published that, it is of interest only as long as `ver` is
      the live version. */
  ghost predicate Going(c: Config, s: State, p: Pid, ver: Version, max: Option<int>) {
    Good(c, s, p, ver, max) && (Published(s, ver) ==> s.live == ver)
  }

  lemma AcquireCloser(c: Config, s: State, p: Pid, a: Action, s': State, ver: Version, max: Option<int>)
    requires Going(c, s, p, ver, max) && Intact(a) && Acquire(c, s, p, a) == Some(s')
    ensures Closer(c, s, p, Act(p, a), s', ver, max)
  {
    hide IsMax, Left, Stale, Closer, Acquire, Going;
    if a.Load? || a.CheckMarker? || a.ClaimRun? || a.ClaimReply? { ClaimCloser(c, s, p, a, s', ver, max); }
    else if a.Recheck? || a.CheckRequest? { RecheckCloser(c, s, p, a, s', ver, max); }
    else { ConfirmCloser(c, s, p, a, s', ver, max); }
  }

  lemma RecheckCloser(c: Config, s: State, p: Pid, a: Action, s': State, ver: Version, max: Option<int>)
    requires Going(c, s, p, ver, max) && Intact(a) && Acquire(c, s, p, a) == Some(s')
    requires a.Recheck? || a.CheckRequest?
    ensures Closer(c, s, p, Act(p, a), s', ver, max)
  {
    hide IsMax, Left, Stale;
  }

  lemma ConfirmCloser(c: Config, s: State, p: Pid, a: Action, s': State, ver: Version, max: Option<int>)
    requires Going(c, s, p, ver, max) && Intact(a) && Acquire(c, s, p, a) == Some(s')
    requires !a.Load? && !a.CheckMarker? && !a.ClaimRun? && !a.ClaimReply? && !a.Recheck? && !a.CheckRequest?
    ensures Closer(c, s, p, Act(p, a), s', ver, max)
  {
    hide IsMax, Left, Stale;
    if a.ConfirmRun? || a.ConfirmReply? { RenewalCloser(c, s, p, a, s', ver, max); }
  }

  lemma RenewalCloser(c: Config, s: State, p: Pid, a: Action, s': State, ver: Version, max: Option<int>)
    requires Going(c, s, p, ver, max) && Intact(a) && Acquire(c, s, p, a) == Some(s')
    requires a.ConfirmRun? || a.ConfirmReply?
    ensures Closer(c, s, p, Act(p, a), s', ver, max)
  {
    hide IsMax, Left, Stale;
  }

  lemma ClaimCloser(c: Config, s: State, p: Pid, a: Action, s': State, ver: Version, max: Option<int>)
    requires Going(c, s, p, ver, max) && Intact(a) && Acquire(c, s, p, a) == Some(s')
    requires a.Load? || a.CheckMarker? || a.ClaimRun? || a.ClaimReply?
    ensures Closer(c, s, p, Act(p, a), s', ver, max)
  {
    hide IsMax, Left;
  }

  lemma MaxCloser(c: Config, s: State, p: Pid, a: Action, s': State, ver: Version, max: Option<int>)
    requires Going(c, s, p, ver, max) && a.ReadMax? && Intact(a) && s.procs[p].phase.Sweeping?
    requires DoSweep(c, s, p, s.procs[p].phase.ver, s.procs[p].phase.sweep, a) == Some(s')
    ensures Closer(c, s, p, Act(p, a), s', ver, max)
  {
    hide IsMax, Left, Superseded;
    if !Published(s, ver) { OneMax(s.flags, max, a.max); }
  }

  lemma BatchCloser(c: Config, s: State, p: Pid, a: Action, s': State, ver: Version, max: Option<int>)
    requires Going(c, s, p, ver, max) && a.RunBatch? && Intact(a) && s.procs[p].phase.Sweeping?
    requires DoSweep(c, s, p, s.procs[p].phase.ver, s.procs[p].phase.sweep, a) == Some(s')
    ensures Closer(c, s, p, Act(p, a), s', ver, max)
  {
    hide Flagged, IsMax, Left, Superseded;
    if !Published(s, ver) { SameMax(s.flags, s.procs[p].phase.sweep.progress.fromId, ver, max); }
  }

  lemma CheckCloser(c: Config, s: State, p: Pid, a: Action, s': State, ver: Version, max: Option<int>)
    requires Going(c, s, p, ver, max) && a.CheckBatch? && Intact(a) && s.procs[p].phase.Sweeping?
    requires DoSweep(c, s, p, s.procs[p].phase.ver, s.procs[p].phase.sweep, a) == Some(s')
    ensures Closer(c, s, p, Act(p, a), s', ver, max)
  {
    hide IsMax;
  }

  lemma RenewCloser(c: Config, s: State, p: Pid, a: Action, s': State, ver: Version, max: Option<int>)
    requires Going(c, s, p, ver, max) && Intact(a) && s.procs[p].phase.Sweeping? && c.abort >= 1
    requires Renew(c, s, p, s.procs[p].phase.ver, s.procs[p].phase.sweep, a) == Some(s')
    ensures Closer(c, s, p, Act(p, a), s', ver, max)
  {
    hide IsMax, Left, Budget;
    assert Elapsed(s.now, s.now) == 0;
  }

  lemma ConcludeCloser(c: Config, s: State, p: Pid, a: Action, s': State, ver: Version, max: Option<int>)
    requires Going(c, s, p, ver, max) && Intact(a) && Conclude(c, s, p, a) == Some(s')
    ensures Closer(c, s, p, Act(p, a), s', ver, max)
  {
    hide IsMax, Left;
  }

  lemma StepCloser(c: Config, s: State, p: Pid, l: Label, s': State, ver: Version, max: Option<int>)
    requires Going(c, s, p, ver, max) && Own(p, l) && Step(c, s, l) == Some(s') && c.abort >= 1
    ensures Closer(c, s, p, l, s', ver, max)
  {
    hide IsMax, Left;
    if l.Act? {
      hide Acquire, DoSweep, Renew, Conclude, Closer, Good, Intact;
      var a := l.action;
      if s.procs[p].phase.Sweeping? {
        if a.ReadMax? { MaxCloser(c, s, p, a, s', ver, max); }
        else if a.RunBatch? { BatchCloser(c, s, p, a, s', ver, max); }
        else if a.CheckBatch? { CheckCloser(c, s, p, a, s', ver, max); }
        else { RenewCloser(c, s, p, a, s', ver, max); }
      } else if s.procs[p].phase.Swept? || s.procs[p].phase.Publishing? || s.procs[p].phase.PublishSent?
                || s.procs[p].phase.Releasing? {
        ConcludeCloser(c, s, p, a, s', ver, max);
      } else {
        AcquireCloser(c, s, p, a, s', ver, max);
      }
    }
  }

  /** An invocation left to itself publishes the live version, whatever its renewals do beside it: after so
      many steps of its work the marker names that version and keeps to it. */
  lemma {:induction false} Publishes(c: Config, s: State, p: Pid, labels: seq<Label>, max: Option<int>)
    requires Good(c, s, p, s.live, max) && Undisturbed(p, labels) && c.abort >= 1
    requires Play(c, s, labels).Some?
    requires Published(s, s.live) || Work(labels) >= ToDo(max, s.procs[p].phase)
    ensures var s' := Play(c, s, labels).value; Published(s', s'.live) && s'.live == s.live
    decreases |labels|
  {
    hide Good, Step, ToDo, Own;
    if labels == [] {
      if !Published(s, s.live) { NothingLeft(c, s, p, s.live, max); }
    } else {
      var s' := Step(c, s, labels[0]).value;
      StepCloser(c, s, p, labels[0], s', s.live, max);
      assert forall l :: l in labels[1..] ==> l in labels;
      Publishes(c, s', p, labels[1..], max);
    }
  }

  lemma NothingLeft(c: Config, s: State, p: Pid, ver: Version, max: Option<int>)
    requires Good(c, s, p, ver, max) && ToDo(max, s.procs[p].phase) == 0
    ensures Published(s, ver)
  {}

  /** The next step of its work. */
  function NextAction(phase: Phase, max: Option<int>): (a: Action)
    ensures Intact(a) && IsWork(Act(0, a))
  {
    match phase
    case Begin => Load(true)
    case Loaded(_) => CheckMarker(true)
    case WantClaim(_) => ClaimRun
    case ClaimSent(_, _) => ClaimReply(true)
    case Claimed(_) => Recheck(true)
    case Rechecked(_) => CheckRequest(true)
    case Confirming(_) => ConfirmRun
    case ConfirmSent(_, _) => ConfirmReply(true)
    case Confirmed(_, _) => MakeTimer
    case Timer(_, _, _) => BeginSweep
    case Sweeping(_, sw) => (
      match sw.progress
      case NeedMax => ReadMax(true, max)
      case Batch(_, _) => RunBatch(true, true)
      case Check(_, _) => CheckBatch(true, true))
    case Swept(_, _) => CheckSwept(true, true)
    case Publishing(_) => PublishRun
    case PublishSent(_, _) => PublishReply(true)
    case Releasing(_) => ReleaseRun
    case Finished => Load(true)
  }

  /** And until it has published it can always go on. */
  lemma GoesOn(c: Config, s: State, p: Pid, ver: Version, max: Option<int>)
    requires Good(c, s, p, ver, max) && !Published(s, ver)
    ensures Do(c, s, p, NextAction(s.procs[p].phase, max)).Some?
  {
    hide IsMax, Left, Flagged;
  }

  lemma PlayMore(c: Config, s: State, l: Label, s': State, labels: seq<Label>)
    requires Step(c, s, l) == Some(s')
    ensures Play(c, s, [l] + labels) == Play(c, s', labels)
  {
    hide Step;
    assert ([l] + labels)[1..] == labels;
  }

  /** So many steps of its work can follow each other. */
  lemma {:induction false} CanWork(c: Config, s: State, p: Pid, ver: Version, max: Option<int>, n: nat)
    returns (labels: seq<Label>, s': State)
    requires Good(c, s, p, ver, max) && !Published(s, ver) && c.abort >= 1 && n <= ToDo(max, s.procs[p].phase)
    ensures Undisturbed(p, labels) && Play(c, s, labels) == Some(s') && |labels| == n
    ensures Good(c, s', p, ver, max)
    ensures s'.live == s.live && s'.request == s.request && s'.procs.Keys == s.procs.Keys
    ensures n == ToDo(max, s.procs[p].phase) ==> Published(s', ver)
    ensures n < ToDo(max, s.procs[p].phase) ==>
      s'.marker == s.marker && ToDo(max, s'.procs[p].phase) + n == ToDo(max, s.procs[p].phase)
    decreases n
  {
    if n == 0 {
      if ToDo(max, s.procs[p].phase) == 0 { NothingLeft(c, s, p, ver, max); }
      return [], s;
    }
    hide Good, Step, ToDo, Do;
    var l := Act(p, NextAction(s.procs[p].phase, max));
    GoesOn(c, s, p, ver, max);
    var s1 := Do(c, s, p, l.action).value;
    assert Step(c, s, l) == Some(s1);
    StepCloser(c, s, p, l, s1, ver, max);
    LastStep(c, s, p, ver, max);
    if Published(s1, ver) {
      labels, s' := [l], s1;
      PlayMore(c, s, l, s1, []);
    } else {
      var rest;
      rest, s' := CanWork(c, s1, p, ver, max, n - 1);
      labels := [l] + rest;
      PlayMore(c, s, l, s1, rest);
    }
  }

  lemma LastStep(c: Config, s: State, p: Pid, ver: Version, max: Option<int>)
    requires Good(c, s, p, ver, max) && !Published(s, ver)
    ensures s.procs[p].phase.Publishing? <==> ToDo(max, s.procs[p].phase) == 1
  {}

  // ---------------------------------------------------------------- when none ever does

  /** The phases from a passed request check on. */
  predicate PastCheck(phase: Phase) {
    || phase.Confirming? || phase.ConfirmSent? || phase.Confirmed? || phase.Timer?
    || phase.Sweeping? || phase.Swept? || phase.Publishing? || phase.PublishSent?
  }

  /** Another version than the live one is requested, and the marker is not at the live one, nor will anybody
      get it there who has passed the request check. */
  ghost predicate Stuck(s: State) {
    && s.request.Some? && s.request != Some(s.live) && !Published(s, s.live)
    && forall p :: p in s.procs ==> Behind(s, s.procs[p].phase)
  }

  predicate Behind(s: State, phase: Phase) {
    PastCheck(phase) ==> phase.ver != s.live
  }

  /** The keywords change, the live version is requested, or a request check fails and is passed over. */
  predicate Frees(live: Version, l: Label) {
    match l
    case Edit(_) => true
    case SetRequest(ver) => ver == live
    case Act(_, a) => a == CheckRequest(false)
    case _ => false
  }

  /** What an action does to a stuck state. */
  predicate ActedStuck(s: State, p: Pid, s': State)
    requires p in s.procs
  {
    && s'.live == s.live && s'.request == s.request && !Published(s', s.live)
    && p in s'.procs && s'.procs == s.procs[p := s'.procs[p]] && Behind(s', s'.procs[p].phase)
  }

  lemma AcquireStuck(c: Config, s: State, p: Pid, a: Action, s': State)
    requires Stuck(s) && p in s.procs && a != CheckRequest(false) && Acquire(c, s, p, a) == Some(s')
    ensures ActedStuck(s, p, s')
  {
    assert s.request.Some? && s.request != Some(s.live) && !Published(s, s.live);
    assert Behind(s, s.procs[p].phase);
    hide Stuck, Acquire, ActedStuck;
    if PastCheck(s.procs[p].phase) { ConfirmStuck(c, s, p, a, s'); } else { ClaimStuck(c, s, p, a, s'); }
  }

  lemma ClaimStuck(c: Config, s: State, p: Pid, a: Action, s': State)
    requires s.request.Some? && s.request != Some(s.live) && !Published(s, s.live)
    requires p in s.procs && !PastCheck(s.procs[p].phase) && a != CheckRequest(false) && Acquire(c, s, p, a) == Some(s')
    ensures ActedStuck(s, p, s')
  {
    hide Stale;
  }

  lemma ConfirmStuck(c: Config, s: State, p: Pid, a: Action, s': State)
    requires p in s.procs && PastCheck(s.procs[p].phase) && s.procs[p].phase.ver != s.live && !Published(s, s.live)
    requires Acquire(c, s, p, a) == Some(s')
    ensures ActedStuck(s, p, s')
  {
    hide Stale;
  }

  lemma SweepStuck(c: Config, s: State, p: Pid, a: Action, s': State)
    requires Stuck(s) && p in s.procs && s.procs[p].phase.Sweeping?
    requires DoSweep(c, s, p, s.procs[p].phase.ver, s.procs[p].phase.sweep, a) == Some(s')
    ensures ActedStuck(s, p, s')
  {
    assert Behind(s, s.procs[p].phase);
    hide Stuck, Flagged, IsMax, Superseded;
  }

  lemma RenewStuck(c: Config, s: State, p: Pid, a: Action, s': State)
    requires Stuck(s) && p in s.procs && s.procs[p].phase.Sweeping?
    requires Renew(c, s, p, s.procs[p].phase.ver, s.procs[p].phase.sweep, a) == Some(s')
    ensures ActedStuck(s, p, s')
  {
    assert Behind(s, s.procs[p].phase);
    hide Elapsed, Budget;
  }

  lemma ConcludeStuck(c: Config, s: State, p: Pid, a: Action, s': State)
    requires Stuck(s) && p in s.procs && Conclude(c, s, p, a) == Some(s')
    ensures ActedStuck(s, p, s')
  {
    assert Behind(s, s.procs[p].phase);
    hide Superseded;
  }

  lemma StepStuck(c: Config, s: State, l: Label, s': State)
    requires Stuck(s) && !Frees(s.live, l) && Step(c, s, l) == Some(s')
    ensures Stuck(s') && s'.live == s.live
  {
    if l.Act? {
      hide Acquire, DoSweep, Renew, Conclude;
      var (p, a) := (l.pid, l.action);
      if s.procs[p].phase.Sweeping? {
        if a.ReadMax? || a.RunBatch? || a.CheckBatch? { SweepStuck(c, s, p, a, s'); }
        else { RenewStuck(c, s, p, a, s'); }
      } else if s.procs[p].phase.Swept? || s.procs[p].phase.Publishing? || s.procs[p].phase.PublishSent?
                || s.procs[p].phase.Releasing? {
        ConcludeStuck(c, s, p, a, s');
      } else {
        AcquireStuck(c, s, p, a, s');
      }
    } else {
      hide Flagged, MayWait;
    }
  }

  /** Whatever any number of invocations, timers and the scheduler do: until the keywords change again, their
      version is requested, or a request check fails, the marker does not get to the live version. */
  lemma {:induction false} StuckForever(c: Config, s: State, labels: seq<Label>)
    requires Stuck(s) && Play(c, s, labels).Some? && forall l :: l in labels ==> !Frees(s.live, l)
    ensures var s' := Play(c, s, labels).value; Stuck(s') && s'.live == s.live
    decreases |labels|
  {
    hide Stuck, Step, Frees;
    if labels != [] {
      var s' := Step(c, s, labels[0]).value;
      StepStuck(c, s, labels[0], s');
      assert forall l :: l in labels[1..] ==> l in labels;
      StuckForever(c, s', labels[1..]);
    }
  }

  /** The invocation, left to itself, may come to publish the live version. */
  ghost predicate Converges(c: Config, s: State, p: Pid) {
    exists labels :: Undisturbed(p, labels) && Play(c, s, labels).Some?
      && Published(Play(c, s, labels).value, s.live)
  }

  /** An invocation that finds the lease stale, and the marker not at the live version, gets it there if and only
      if no other version is requested; and then it does so in every run in which it is left to itself
      long enough. */
  lemma ConvergesIff(c: Config, s: State, p: Pid, max: Option<int>)
    requires c.abort >= 1 && p in s.procs && s.procs[p].phase == Begin && Stale(c, s) && IsMax(s.flags, max)
    requires !Published(s, s.live) && forall q :: q in s.procs ==> Behind(s, s.procs[q].phase)
    ensures Converges(c, s, p) <==> s.request == None || s.request == Some(s.live)
    ensures Converges(c, s, p) ==>
      forall labels :: Undisturbed(p, labels) && Work(labels) >= ToDo(max, Begin) && Play(c, s, labels).Some? ==>
        Published(Play(c, s, labels).value, s.live)
  {
    hide Stale, ToDo, Work, Play, IsMax;
    if s.request == None || s.request == Some(s.live) {
      var labels, s' := CanWork(c, s, p, s.live, max, ToDo(max, Begin));
      assert Published(Play(c, s, labels).value, s.live);
      forall labels | Undisturbed(p, labels) && Work(labels) >= ToDo(max, Begin) && Play(c, s, labels).Some?
        ensures Published(Play(c, s, labels).value, s.live)
      {
        Publishes(c, s, p, labels, max);
      }
    } else {
      forall labels | Undisturbed(p, labels) && Play(c, s, labels).Some?
        ensures !Published(Play(c, s, labels).value, s.live)
      {
        assert forall l :: l in labels ==> Own(p, l);
        StuckForever(c, s, labels);
      }
    }
  }

  // ---------------------------------------------------------------- how it comes to that

  /** `schedule_kind_recompute`, which reads the marker, the request and the lease and starts invocation `p`. */
  function Schedule(c: Config, s: State, p: Pid): seq<Label> {
    if Published(s, s.live) then []
    else if s.request != Some(s.live) then
      [SetRequest(s.live)] + (if c.aborts then [Abort] else []) + [Spawn(p)]
    else if Stale(c, s) then [SetRequest(s.live), Spawn(p)]
    else [SetRequest(s.live)]
  }

  /** What scheduling is for: unless the marker names the live version already, that version is requested; and unless
      an invocation holds the lease for that very request, a new one begins that, left to itself, publishes it,
      whatever else is under way. Where leases are not deleted, this holds once the lease is stale. */
  lemma ScheduledConverges(c: Config, s: State, p: Pid, max: Option<int>) returns (s': State)
    requires c.abort >= 1 && p !in s.procs && IsMax(s.flags, max) && !Published(s, s.live)
    ensures Play(c, s, Schedule(c, s, p)) == Some(s')
    ensures s'.live == s.live && s'.request == Some(s.live) && s'.marker == s.marker && s'.flags == s.flags
    ensures p in s'.procs <==> s.request != Some(s.live) || Stale(c, s)
    ensures (s.request != Some(s.live) && c.aborts) || Stale(c, s) ==>
      && Converges(c, s', p)
      && forall labels :: Undisturbed(p, labels) && Work(labels) >= ToDo(max, Begin) && Play(c, s', labels).Some? ==>
           Published(Play(c, s', labels).value, s'.live)
  {
    hide ToDo, Work, IsMax, Undisturbed;
    s' := Scheduled(c, s, p);
    SchedulePlays(c, s, p);
    if (s.request != Some(s.live) && c.aborts) || Stale(c, s) {
      assert Good(c, s', p, s'.live, max);
      var labels, end := CanWork(c, s', p, s'.live, max, ToDo(max, Begin));
      forall labels | Undisturbed(p, labels) && Work(labels) >= ToDo(max, Begin) && Play(c, s', labels).Some?
        ensures Published(Play(c, s', labels).value, s'.live)
      {
        Publishes(c, s', p, labels, max);
      }
    }
  }

  /** The state when the scheduler is done. */
  function Scheduled(c: Config, s: State, p: Pid): State {
    var changed := s.request != Some(s.live);
    s.(request := Some(s.live), lease := if changed && c.aborts then None else s.lease,
       procs := if changed || Stale(c, s) then s.procs[p := Proc(1, Begin, 0)] else s.procs)
  }

  lemma SchedulePlays(c: Config, s: State, p: Pid)
    requires p !in s.procs && !Published(s, s.live)
    ensures Play(c, s, Schedule(c, s, p)) == Some(Scheduled(c, s, p))
  {
    var (s1, s') := (s.(request := Some(s.live)), Scheduled(c, s, p));
    if s.request != Some(s.live) && c.aborts {
      PlayMore(c, s1.(lease := None), Spawn(p), s', []);
      PlayMore(c, s1, Abort, s1.(lease := None), [Spawn(p)]);
      PlayMore(c, s, SetRequest(s.live), s1, [Abort] + [Spawn(p)]);
      assert [SetRequest(s.live)] + [Abort] + [Spawn(p)] == [SetRequest(s.live)] + ([Abort] + [Spawn(p)]);
    } else if s.request != Some(s.live) || Stale(c, s) {
      PlayMore(c, s1, Spawn(p), s', []);
      PlayMore(c, s, SetRequest(s.live), s1, [Spawn(p)]);
      assert [SetRequest(s.live)] + [] + [Spawn(p)] == [SetRequest(s.live), Spawn(p)] == [SetRequest(s.live)] + [Spawn(p)];
    } else {
      assert s' == s1;
      PlayMore(c, s, SetRequest(s.live), s1, []);
    }
  }

  /** Everything is up to date for `ver`, and nothing runs. */
  function Quiet(ver: Version, flags: map<int, Version>): State {
    State(0, None, Some(ver), None, ver, flags, map[], {})
  }

  /** The keywords have been edited, and the edit is scheduled. */
  function Edited(from: Version, to: Version, flags: map<int, Version>): State {
    Quiet(from, flags).(live := to, request := Some(to), procs := map[0 := Proc(1, Begin, 0)])
  }

  lemma EditScheduled(c: Config, from: Version, to: Version, flags: map<int, Version>)
    requires from != to
    ensures var s := Quiet(from, flags);
      Play(c, s, [Edit(to)] + Schedule(c, s.(live := to), 0)) == Some(Edited(from, to, flags))
  {
    var s := Quiet(from, flags);
    var s1 := s.(live := to);
    var s2 := s1.(request := Some(to));
    var started := Edited(from, to, flags);
    PlayMore(c, s2, Spawn(0), started, []);
    if c.aborts {
      PlayMore(c, s2, Abort, s2, [Spawn(0)]);
      PlayMore(c, s1, SetRequest(to), s2, [Abort] + [Spawn(0)]);
      assert [SetRequest(to)] + [Abort] + [Spawn(0)] == [SetRequest(to)] + ([Abort] + [Spawn(0)]);
    } else {
      PlayMore(c, s1, SetRequest(to), s2, [Spawn(0)]);
      assert [SetRequest(to)] + [] + [Spawn(0)] == [SetRequest(to)] + [Spawn(0)];
    }
    PlayMore(c, s, Edit(to), s1, Schedule(c, s1, 0));
  }

  /** An edit is scheduled and its sweep begins; `n` steps behind the start, in `mid`, the edit is taken back. The
      scheduler finds the marker at the live version and does nothing, the sweep publishes the version it was
      for, and the state is stuck. */
  ghost predicate Sticks(c: Config, from: Version, to: Version, flags: map<int, Version>, n: nat,
                         begun: seq<Label>, mid: State, rest: seq<Label>, end: State) {
    && Play(c, Quiet(from, flags), [Edit(to)] + Schedule(c, Quiet(from, flags).(live := to), 0))
       == Some(Edited(from, to, flags))
    && Play(c, Edited(from, to, flags), begun) == Some(mid) && Undisturbed(0, begun) && |begun| == n
    && Schedule(c, mid.(live := from), 1) == []
    && Play(c, mid, [Edit(from)] + rest) == Some(end) && Undisturbed(0, rest)
    && Stuck(end) && end.live == from && end.marker == Some(to)
  }

  lemma RevertSticks(c: Config, from: Version, to: Version, flags: map<int, Version>, max: Option<int>, n: nat)
    returns (begun: seq<Label>, mid: State, rest: seq<Label>, end: State)
    requires c.abort >= 1 && from != to && IsMax(flags, max) && 1 <= n < ToDo(max, Begin)
    ensures Reaches(c, Quiet(from, flags)) && Sticks(c, from, to, flags, n, begun, mid, rest, end)
  {
    hide Reaches, Play, ToDo, IsMax;
    ReachStart(c, Quiet(from, flags));
    EditScheduled(c, from, to, flags);
    begun, mid := CanWork(c, Edited(from, to, flags), 0, to, max, n);
    var back := mid.(live := from);
    StillGood(c, mid, 0, to, max, from);
    rest, end := CanWork(c, back, 0, to, max, ToDo(max, mid.procs[0].phase));
    PlayMore(c, mid, Edit(from), back, rest);
  }

  lemma StillGood(c: Config, s: State, p: Pid, ver: Version, max: Option<int>, live: Version)
    requires Good(c, s, p, ver, max) && s.request == Some(ver) && !s.procs[p].phase.Begin?
    ensures Good(c, s.(live := live), p, ver, max)
  {}

  // ---------------------------------------------------------------- and how it goes on

  lemma PlayAct(c: Config, s: State, p: Pid, a: Action, s': State, labels: seq<Label>)
    requires p in s.procs && Do(c, s, p, a) == Some(s')
    ensures Play(c, s, [Act(p, a)] + labels) == Play(c, s', labels)
  {
    hide Do;
    PlayMore(c, s, Act(p, a), s', labels);
  }

  /** An attempt that comes to nothing: it claims the lease, finds another version requested, and lets go. */
  function Claiming(p: Pid, rest: seq<Label>): seq<Label> {
    [Act(p, Load(true))] + ([Act(p, CheckMarker(true))] + ([Act(p, ClaimRun)] + ([Act(p, ClaimReply(true))] + rest)))
  }

  function LettingGo(p: Pid, rest: seq<Label>): seq<Label> {
    [Act(p, Recheck(true))] + ([Act(p, CheckRequest(true))] + ([Act(p, ReleaseRun)] + rest))
  }

  lemma ClaimingPlays(c: Config, s: State, p: Pid, rest: seq<Label>)
    requires p in s.procs && s.procs[p].phase == Begin && Stale(c, s) && !Published(s, s.live)
    ensures Play(c, s, Claiming(p, rest))
         == Play(c, To(s.(lease := Some(Lease(p, s.now))), p, Claimed(s.live)), rest)
  {
    hide Play;
    var v := s.live;
    var s1, s2 := To(s, p, Loaded(v)), To(s, p, WantClaim(v));
    var s3 := To(s.(lease := Some(Lease(p, s.now))), p, ClaimSent(v, true));
    var s4 := To(s.(lease := Some(Lease(p, s.now))), p, Claimed(v));
    assert s2 == To(s1, p, WantClaim(v));
    assert s3 == To(s2.(lease := Some(Lease(p, s.now))), p, ClaimSent(v, true));
    assert s4 == To(s3, p, Claimed(v));
    PlayAct(c, s3, p, ClaimReply(true), s4, rest);
    PlayAct(c, s2, p, ClaimRun, s3, [Act(p, ClaimReply(true))] + rest);
    PlayAct(c, s1, p, CheckMarker(true), s2, [Act(p, ClaimRun)] + ([Act(p, ClaimReply(true))] + rest));
    PlayAct(c, s, p, Load(true), s1,
      [Act(p, CheckMarker(true))] + ([Act(p, ClaimRun)] + ([Act(p, ClaimReply(true))] + rest)));
  }

  lemma LettingGoPlays(c: Config, s: State, p: Pid, rest: seq<Label>)
    requires p in s.procs && s.procs[p].phase == Claimed(s.live) && Owns(s, p)
    requires s.request.Some? && s.request != Some(s.live) && !Published(s, s.live)
    ensures Play(c, s, LettingGo(p, rest)) == Play(c, Retry(c, s.(lease := None), p), rest)
  {
    hide Play;
    var s1, s2 := To(s, p, Rechecked(s.live)), To(s, p, Releasing(true));
    assert s2 == To(s1, p, Releasing(true));
    var s3 := Retry(c, s2.(lease := None), p);
    assert s3 == Retry(c, s.(lease := None), p);
    PlayAct(c, s2, p, ReleaseRun, s3, rest);
    PlayAct(c, s1, p, CheckRequest(true), s2, [Act(p, ReleaseRun)] + rest);
    PlayAct(c, s, p, Recheck(true), s1, [Act(p, CheckRequest(true))] + ([Act(p, ReleaseRun)] + rest));
  }

  lemma RoundOwn(p: Pid, rest: seq<Label>)
    requires Undisturbed(p, rest) && forall l :: l in rest ==> l.Act?
    ensures var labels := Claiming(p, LettingGo(p, rest));
      |labels| == 7 + |rest| && Undisturbed(p, labels) && forall l :: l in labels ==> l.Act?
  {}

  /** In a stuck state an invocation left to itself spends all its attempts within the instant, seven steps
      each, and ends without having changed the marker. */
  lemma {:induction false} GivesUp(c: Config, s: State, p: Pid) returns (labels: seq<Label>, s': State)
    requires p in s.procs && s.procs[p].phase == Begin && s.procs[p].attempt <= c.attempts && Stale(c, s)
    requires s.request.Some? && s.request != Some(s.live) && !Published(s, s.live)
    ensures Play(c, s, labels) == Some(s') && |labels| == 7 * (c.attempts + 1 - s.procs[p].attempt)
    ensures Undisturbed(p, labels) && forall l :: l in labels ==> l.Act?
    ensures p in s'.procs && s'.procs[p].phase == Finished && s'.marker == s.marker && s'.now == s.now
    decreases c.attempts - s.procs[p].attempt
  {
    hide Play, Undisturbed, Claiming, LettingGo;
    var claimed := To(s.(lease := Some(Lease(p, s.now))), p, Claimed(s.live));
    var after := Retry(c, s.(lease := None), p);
    assert after == Retry(c, claimed.(lease := None), p);
    var rest;
    if s.procs[p].attempt < c.attempts {
      rest, s' := GivesUp(c, after, p);
    } else {
      rest, s' := [], after;
      PlayNothing(c, after);
    }
    RoundOwn(p, rest);
    labels := Claiming(p, LettingGo(p, rest));
    ClaimingPlays(c, s, p, LettingGo(p, rest));
    LettingGoPlays(c, claimed, p, rest);
  }

  lemma PlayNothing(c: Config, s: State)
    ensures Play(c, s, []) == Some(s) && forall p :: Undisturbed(p, [])
  {}
}
