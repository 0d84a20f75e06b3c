/** The deployment-wide lease around the keyword recompute (backend/src/state.rs).

    Any number of invocations of `kw_recompute_single_flight` run against one `keyword_sync_state`
    table. The model is a step machine: a step is one SQL statement taking effect, one reply
    reaching its process, one timer firing, or time passing. A run is any sequence of steps. */
module KeywordLease {
  import opened Basics
  import opened Wrappers

  /** An invocation of `kw_recompute_single_flight`; its owner token is unique to it. */
  type Pid = nat
  /** A keyword version tag. */
  type Version = nat

  /** Instants and durations are nanoseconds, the resolution of `Instant`. */
  const SEC: int := 1_000_000_000
  const BATCH_SIZE: int := 500

  /** The constants of the protocol in seconds, the attempt bound, the longest time (in
      nanoseconds) between the effect of a confirmed renewal and the process taking note of it,
      whether `schedule_kind_recompute` may delete the lease while a run is on, and whether a batch
      statement whose process has given it up may still take effect. */
  datatype Config =
    Config(stale: nat, renew: nat, abort: nat, attempts: nat, latency: nat, aborts: bool, late: bool)

  /** The values the source ships. */
  function Shipped(latency: nat, aborts: bool, late: bool): Config {
    Config(180, 60, 120, 48, latency, aborts, late)
  }

  // ---------------------------------------------------------------- state

  datatype Lease = Lease(owner: Pid, syncedAt: int)

  /** Effect of a renewal statement: when it ran and whether it touched the row. */
  datatype Effect = Effect(at: int, touched: bool)

  datatype Renewal = Idle | InFlight(startedAt: int, timeoutAt: int, effect: Option<Effect>)

  /** How far `recompute_keyword_blocked` is: `MAX(id)` not read yet, or about to update the batch
      after `fromId`, or about to ask whether it is superseded after that batch. */
  datatype Progress = NeedMax | Batch(maxId: int, fromId: int) | Check(maxId: int, fromId: int)

  datatype Sweep = Sweep(lastConfirmed: int, nextTick: int, renewal: Renewal, progress: Progress)

  /** Where an invocation is in its attempt. */
  datatype Phase =
    | Begin
    | Loaded(ver: Version)                               // compare with the marker
    | WantClaim(ver: Version)
    | ClaimSent(ver: Version, won: bool)
    | Claimed(ver: Version)                              // recheck the marker
    | Rechecked(ver: Version)                            // compare with the request row
    | Confirming(ver: Version)                           // fenced renewal before the sweep
    | ConfirmSent(ver: Version, effect: Effect)
    | Confirmed(ver: Version, at: int)                   // renewal timer not created yet
    | Timer(ver: Version, at: int, firstTick: int)       // sweep not started yet
    | Sweeping(ver: Version, sweep: Sweep)
    | Swept(ver: Version, ok: bool)
    | Publishing(ver: Version)
    | PublishSent(ver: Version, wrote: bool)
    | Releasing(again: bool)
    | Finished

  /** `strays`: renewals given up by the process that may still take effect. */
  datatype Proc = Proc(attempt: nat, phase: Phase, strays: nat)

  /** A batch statement without a client: the rows behind `fromId`, for the keywords of `ver`. */
  datatype LateBatch = LateBatch(fromId: int, ver: Version)

  /** The table rows (lease, marker, request), the live keyword version, for every media row the
      version its flag was last computed from, the invocations, and the batches given up. */
  datatype State = State(
    now: int,
    lease: Option<Lease>,
    marker: Option<Version>,
    request: Option<Version>,
    live: Version,
    flags: map<int, Version>,
    procs: map<Pid, Proc>,
    late: set<LateBatch>)

  // ---------------------------------------------------------------- steps

  /** Actions of one invocation. Boolean parameters say whether a read or a reply arrived intact. */
  datatype Action =
    | Load(ok: bool)
    | CheckMarker(ok: bool)
    | ClaimRun | ClaimError | ClaimReply(ok: bool)
    | Recheck(ok: bool)
    | CheckRequest(ok: bool)
    | ConfirmRun | ConfirmError | ConfirmReply(ok: bool)
    | MakeTimer
    | BeginSweep
    | ReadMax(ok: bool, max: Option<int>)
    | RunBatch(ok: bool, applied: bool)
    | CheckBatch(requestOk: bool, liveOk: bool)
    | Tick
    | RenewRun | RenewReply | RenewError | RenewTimeout
    | CheckSwept(requestOk: bool, liveOk: bool)
    | PublishRun | PublishError | PublishReply(ok: bool)
    | ReleaseRun | ReleaseError

  datatype Label =
    | Advance(dt: int)          // time passes
    | Edit(ver: Version)        // the keyword tables change
    | SetRequest(ver: Version)  // schedule_kind_recompute records a request
    | Abort                     // ... deletes the lease, unfenced
    | Spawn(pid: Pid)           // ... and starts an invocation
    | Stray(pid: Pid)           // a renewal its process has given up takes effect
    | Late(batch: LateBatch)    // so does a batch
    | Act(pid: Pid, action: Action)

  predicate Owns(s: State, p: Pid) {
    s.lease.Some? && s.lease.value.owner == p
  }

  predicate Stale(c: Config, s: State) {
    s.lease.None? || s.lease.value.syncedAt < s.now - c.stale * SEC
  }

  /** The owner-fenced `UPDATE ... SET synced_at = NOW()`. */
  function Refresh(s: State, p: Pid): State {
    if Owns(s, p) then s.(lease := Some(Lease(p, s.now))) else s
  }

  function To(s: State, p: Pid, phase: Phase): State
    requires p in s.procs
  {
    s.(procs := s.procs[p := s.procs[p].(phase := phase)])
  }

  /** `continue`: the next attempt, if there is one. */
  function Retry(c: Config, s: State, p: Pid): State
    requires p in s.procs
  {
    var n := s.procs[p].attempt;
    if n < c.attempts then s.(procs := s.procs[p := s.procs[p].(attempt := n + 1, phase := Begin)])
    else To(s, p, Finished)
  }

  /** `recompute_superseded`. */
  predicate Superseded(s: State, ver: Version, requestOk: bool, liveOk: bool) {
    if requestOk && s.request.Some? then s.request.value != ver else liveOk && s.live != ver
  }

  predicate IsMax(flags: map<int, Version>, max: Option<int>) {
    match max
    case None => flags == map[]
    case Some(m) => m in flags && forall k :: k in flags ==> k <= m
  }

  /** The batch `UPDATE` over the rows with `fromId < id <= fromId + BATCH_SIZE`. */
  function Flagged(flags: map<int, Version>, fromId: int, ver: Version): map<int, Version> {
    map k | k in flags :: if fromId < k <= fromId + BATCH_SIZE then ver else flags[k]
  }

  /** Whole seconds since the last confirmed renewal, as `elapsed().as_secs()`. */
  function Elapsed(now: int, since: int): int {
    (now - since) / SEC
  }

  function AddLate(s: State, ver: Version, fromId: int): State {
    s.(late := s.late + {LateBatch(fromId, ver)})
  }

  /** Leaving `select!` drops the sweep, perhaps while its batch is under way. */
  function DropBatch(s: State, ver: Version, progress: Progress): State {
    if progress.Batch? then AddLate(s, ver, progress.fromId) else s
  }

  /** The deadline test after a renewal attempt: abandon the sweep or wait for the next tick. */
  function AfterAttempt(c: Config, s: State, p: Pid, ver: Version, sweep: Sweep): State
    requires p in s.procs
  {
    if Elapsed(s.now, sweep.lastConfirmed) >= c.abort then To(DropBatch(s, ver, sweep.progress), p, Swept(ver, false))
    else To(s, p, Sweeping(ver, sweep.(renewal := Idle)))
  }

  function AddStray(s: State, p: Pid): State
    requires p in s.procs
  {
    s.(procs := s.procs[p := s.procs[p].(strays := s.procs[p].strays + 1)])
  }

  /** Leaving `select!` drops a renewal in flight; it may still reach the database. */
  function DropRenewal(s: State, p: Pid, r: Renewal): State
    requires p in s.procs
  {
    if r.InFlight? && r.effect.None? then AddStray(s, p) else s
  }

  /** Actions before the sweep. */
  function Acquire(c: Config, s: State, p: Pid, a: Action): Option<State>
    requires p in s.procs
  {
    match (s.procs[p].phase, a)
    case (Begin, Load(ok)) =>
      Some(if ok then To(s, p, Loaded(s.live)) else Retry(c, s, p))
    case (Loaded(ver), CheckMarker(ok)) =>
      Some(To(s, p, if ok && s.marker == Some(ver) then Finished else WantClaim(ver)))
    case (WantClaim(ver), ClaimRun) =>
      if Stale(c, s) then Some(To(s.(lease := Some(Lease(p, s.now))), p, ClaimSent(ver, true)))
      else Some(To(s, p, ClaimSent(ver, false)))
    case (WantClaim(ver), ClaimError) => Some(Retry(c, s, p))
    case (ClaimSent(ver, won), ClaimReply(ok)) =>
      Some(if ok && won then To(s, p, Claimed(ver)) else Retry(c, s, p))
    case (Claimed(ver), Recheck(ok)) =>
      Some(To(s, p, if ok && s.marker == Some(ver) then Releasing(false) else Rechecked(ver)))
    case (Rechecked(ver), CheckRequest(ok)) =>
      Some(To(s, p, if ok && s.request.Some? && s.request.value != ver then Releasing(true) else Confirming(ver)))
    case (Confirming(ver), ConfirmRun) =>
      Some(To(Refresh(s, p), p, ConfirmSent(ver, Effect(s.now, Owns(s, p)))))
    case (Confirming(ver), ConfirmError) => Some(Retry(c, s, p))
    case (ConfirmSent(ver, effect), ConfirmReply(ok)) =>
      Some(if ok && effect.touched then To(s, p, Confirmed(ver, effect.at)) else Retry(c, s, p))
    case (Confirmed(ver, at), MakeTimer) => Some(To(s, p, Timer(ver, at, s.now)))
    case (Timer(ver, at, firstTick), BeginSweep) =>
      Some(To(s, p, Sweeping(ver, Sweep(s.now, firstTick, Idle, NeedMax))))
    case _ => None
  }

  /** Actions of the sweep itself. */
  function DoSweep(c: Config, s: State, p: Pid, ver: Version, sw: Sweep, a: Action): Option<State>
    requires p in s.procs
  {
    match (sw.progress, a)
    case (NeedMax, ReadMax(ok, max)) =>
      if !ok then Some(To(DropRenewal(s, p, sw.renewal), p, Swept(ver, false)))
      else if !IsMax(s.flags, max) then None
      else if max.None? then Some(To(DropRenewal(s, p, sw.renewal), p, Swept(ver, true)))
      else Some(To(s, p, Sweeping(ver, sw.(progress := Batch(max.value, 0)))))
    case (Batch(maxId, fromId), RunBatch(ok, applied)) =>
      var s' := if ok || applied then s.(flags := Flagged(s.flags, fromId, ver)) else AddLate(s, ver, fromId);
      Some(if ok then To(s', p, Sweeping(ver, sw.(progress := Check(maxId, fromId))))
           else To(DropRenewal(s', p, sw.renewal), p, Swept(ver, false)))
    case (Check(maxId, fromId), CheckBatch(requestOk, liveOk)) =>
      if Superseded(s, ver, requestOk, liveOk) then Some(To(DropRenewal(s, p, sw.renewal), p, Swept(ver, false)))
      else if fromId + BATCH_SIZE >= maxId then Some(To(DropRenewal(s, p, sw.renewal), p, Swept(ver, true)))
      else Some(To(s, p, Sweeping(ver, sw.(progress := Batch(maxId, fromId + BATCH_SIZE)))))
    case _ => None
  }

  /** Longest wait for a renewal: what is left of the abort budget, but at least one second. */
  function Budget(c: Config, now: int, lastConfirmed: int): int {
    var remaining := c.abort - Elapsed(now, lastConfirmed);
    if remaining < 1 then 1 else remaining
  }

  /** Actions of `renew_until_lost`, which runs beside the sweep. */
  function Renew(c: Config, s: State, p: Pid, ver: Version, sw: Sweep, a: Action): Option<State>
    requires p in s.procs
  {
    match (sw.renewal, a)
    case (Idle, Tick) =>
      if s.now < sw.nextTick then None
      else
        var r := InFlight(s.now, s.now + Budget(c, s.now, sw.lastConfirmed) * SEC, None);
        Some(To(s, p, Sweeping(ver, sw.(nextTick := sw.nextTick + c.renew * SEC, renewal := r))))
    case (InFlight(startedAt, timeoutAt, None), RenewRun) =>
      var r := InFlight(startedAt, timeoutAt, Some(Effect(s.now, Owns(s, p))));
      Some(To(Refresh(s, p), p, Sweeping(ver, sw.(renewal := r))))
    case (InFlight(_, _, Some(effect)), RenewReply) =>
      if !effect.touched then Some(To(DropBatch(s, ver, sw.progress), p, Swept(ver, false)))
      else Some(AfterAttempt(c, s, p, ver, sw.(lastConfirmed := s.now)))
    case (InFlight(_, _, _), RenewError) =>
      Some(AfterAttempt(c, DropRenewal(s, p, sw.renewal), p, ver, sw))
    case (InFlight(_, timeoutAt, _), RenewTimeout) =>
      if s.now < timeoutAt then None
      else Some(AfterAttempt(c, DropRenewal(s, p, sw.renewal), p, ver, sw))
    case _ => None
  }

  /** Actions after the sweep. */
  function Conclude(c: Config, s: State, p: Pid, a: Action): Option<State>
    requires p in s.procs
  {
    match (s.procs[p].phase, a)
    case (Swept(ver, ok), CheckSwept(requestOk, liveOk)) =>
      Some(To(s, p, if ok && !Superseded(s, ver, requestOk, liveOk) then Publishing(ver) else Releasing(true)))
    case (Publishing(ver), PublishRun) =>
      if Owns(s, p) then Some(To(Refresh(s, p).(marker := Some(ver)), p, PublishSent(ver, true)))
      else Some(To(s, p, PublishSent(ver, false)))
    case (Publishing(ver), PublishError) => Some(To(s, p, Releasing(true)))
    case (PublishSent(ver, wrote), PublishReply(ok)) => Some(To(s, p, Releasing(true)))
    case (Releasing(again), ReleaseRun) =>
      var s' := if Owns(s, p) then s.(lease := None) else s;
      Some(if again then Retry(c, s', p) else To(s', p, Finished))
    case (Releasing(again), ReleaseError) =>
      Some(if again then Retry(c, s, p) else To(s, p, Finished))
    case _ => None
  }

  function Do(c: Config, s: State, p: Pid, a: Action): Option<State>
    requires p in s.procs
  {
    match s.procs[p].phase
    case Sweeping(ver, sw) =>
      if a.ReadMax? || a.RunBatch? || a.CheckBatch? then DoSweep(c, s, p, ver, sw, a)
      else Renew(c, s, p, ver, sw, a)
    case Swept(_, _) => Conclude(c, s, p, a)
    case Publishing(_) => Conclude(c, s, p, a)
    case PublishSent(_, _) => Conclude(c, s, p, a)
    case Releasing(_) => Conclude(c, s, p, a)
    case _ => Acquire(c, s, p, a)
  }

  /** Time may not pass this instant before the invocation has made its next step: replies to
      confirmed renewals arrive within the latency, and timers fire when they are due. */
  function Deadline(c: Config, proc: Proc): Option<int> {
    match proc.phase
    case ConfirmSent(_, effect) => Some(effect.at + c.latency)
    case Confirmed(_, at) => Some(at + c.latency)
    case Timer(_, at, _) => Some(at + c.latency)
    case Sweeping(_, sw) => (
      match sw.renewal
      case Idle => Some(sw.nextTick)
      case InFlight(_, timeoutAt, None) => Some(timeoutAt)
      case InFlight(_, timeoutAt, Some(effect)) =>
        Some(if effect.at + c.latency < timeoutAt then effect.at + c.latency else timeoutAt))
    case _ => None
  }

  predicate MayWait(c: Config, s: State, until: int) {
    forall p :: p in s.procs && Deadline(c, s.procs[p]).Some? ==> until <= Deadline(c, s.procs[p]).value
  }

  /** The state after a step; None when the step is not possible. */
  function Step(c: Config, s: State, l: Label): Option<State> {
    match l
    case Advance(dt) =>
      if dt >= 0 && MayWait(c, s, s.now + dt) then Some(s.(now := s.now + dt)) else None
    case Edit(ver) => Some(s.(live := ver))
    case SetRequest(ver) => Some(s.(request := Some(ver)))
    case Abort => if c.aborts then Some(s.(lease := None)) else None
    case Spawn(p) =>
      if p in s.procs then None else Some(s.(procs := s.procs[p := Proc(1, Begin, 0)]))
    case Stray(p) =>
      if p in s.procs && s.procs[p].strays > 0
      then Some(Refresh(s.(procs := s.procs[p := s.procs[p].(strays := s.procs[p].strays - 1)]), p))
      else None
    case Late(b) =>
      if c.late && b in s.late
      then Some(s.(flags := Flagged(s.flags, b.fromId, b.ver), late := s.late - {b}))
      else None
    case Act(p, a) => if p in s.procs then Do(c, s, p, a) else None
  }

  // ---------------------------------------------------------------- runs

  /** A run: states joined by steps, from a moment at which no invocation exists. Rows left over
      from earlier runs are arbitrary. */
  ghost predicate Run(c: Config, states: seq<State>, labels: seq<Label>) {
    && |states| == |labels| + 1
    && states[0].procs == map[] && states[0].late == {}
    && forall i :: 0 <= i < |labels| ==> Step(c, states[i], labels[i]) == Some(states[i + 1])
  }

  predicate IsSweeping(s: State, p: Pid) {
    p in s.procs && s.procs[p].phase.Sweeping?
  }

  /** No two invocations sweep at the same time. */
  ghost predicate Exclusive(s: State) {
    forall p, q :: IsSweeping(s, p) && IsSweeping(s, q) ==> p == q
  }

  // ---------------------------------------------------------------- exclusion

  /** The abort window, and the time between two ticks. */
  function Window(c: Config): int { c.abort * SEC }
  function Interval(c: Config): int { c.renew * SEC }

  /** How long after the last refresh of its lease an invocation may still sweep. It gives up one second
      behind the first tick at or after the abort deadline. That tick is at most an interval behind the
      confirmation, unless another tick can come just before the deadline: because the ticks run late
      already when the sweep starts, by up to the latency, or when a first renewal is confirmed, by up to
      the latency and the abort window. Without an abort window the first renewal is the last. */
  function Outlived(c: Config): int {
    if c.abort == 0 then c.latency + SEC
    else Interval(c) + SEC + Max(c.latency, Max(
      if LateStart(c) then c.latency + Window(c) - 1 else 0,
      if LateReply(c) then Min(c.latency, Window(c)) + Window(c) - 1 else 0))
  }

  predicate LateStart(c: Config) { c.latency > Interval(c) - Window(c) }

  predicate LateReply(c: Config) { c.latency > Interval(c) - 2 * Window(c) }

  /** A holder has let go before its lease can be claimed: nobody deletes the lease unfenced, and no sweep
      outlives the stale window. */
  predicate Fits(c: Config) {
    !c.aborts && c.renew >= 1 && Outlived(c) <= c.stale * SEC
  }

  /** For renewals less than two abort windows apart, as those of the source are, this is the sum of the latency,
      the window, the interval and a second. */
  lemma OutlivedUsually(c: Config)
    requires 1 <= c.renew < 2 * c.abort
    ensures Outlived(c) == c.latency + (c.abort + c.renew + 1) * SEC - 1
  {
    assert LateReply(c);
    assert LateStart(c) || c.latency <= Window(c);
  }

  /** `p` owns the lease, refreshed at `from` or later. */
  predicate Held(s: State, p: Pid, from: int) {
    Owns(s, p) && from <= s.lease.value.syncedAt <= s.now
  }

  /** With the lease refreshed at `synced`, the first tick at or after the abort deadline is in time. */
  predicate LastTickOk(c: Config, synced: int, confirmed: int, nextTick: int) {
    var (deadline, latest) := (confirmed + Window(c), synced + Outlived(c) - SEC);
    if nextTick >= deadline then nextTick <= latest
    else if nextTick + Interval(c) >= deadline then nextTick + Interval(c) <= latest
    else deadline + Interval(c) - 1 <= latest
  }

  /** The timing of a sweep whose lease was refreshed at `synced`. */
  predicate TimingOk(c: Config, now: int, synced: int, sw: Sweep) {
    && sw.lastConfirmed <= now
    && match sw.renewal
       case Idle =>
         if c.abort == 0 then sw.nextTick <= now == sw.lastConfirmed <= synced + c.latency
         else
           && LastTickOk(c, synced, sw.lastConfirmed, sw.nextTick)
           && (now <= sw.nextTick || now < sw.lastConfirmed + Window(c))
           && (LateStart(c) || now <= sw.nextTick + c.latency)
       case InFlight(startedAt, timeoutAt, effect) =>
         && startedAt <= now <= timeoutAt <= synced + Outlived(c)
         && (effect.Some? ==>
               && effect.value.touched && startedAt <= effect.value.at <= synced
               && effect.value.at <= now <= effect.value.at + c.latency)
         && (c.abort > 0 ==>
               && timeoutAt <= startedAt + Window(c)
               && sw.nextTick <= startedAt + Interval(c)
               && (LateStart(c) || startedAt + Interval(c) <= sw.nextTick + c.latency)
               && (startedAt < sw.lastConfirmed + Window(c) ==>
                     LastTickOk(c, synced, sw.lastConfirmed, sw.nextTick)))
  }

  /** Every positive id below or at `upTo` was last flagged for `ver`. */
  ghost predicate FlaggedUpTo(flags: map<int, Version>, upTo: int, ver: Version) {
    forall k :: k in flags && 0 < k <= upTo ==> flags[k] == ver
  }

  /** Every positive id was last flagged for `ver`. */
  ghost predicate AllFlagged(flags: map<int, Version>, ver: Version) {
    forall k :: k in flags && 0 < k ==> flags[k] == ver
  }

  ghost predicate ProgressOk(s: State, ver: Version, progress: Progress) {
    match progress
    case NeedMax => true
    case Batch(maxId, fromId) => IsMax(s.flags, Some(maxId)) && FlaggedUpTo(s.flags, fromId, ver)
    case Check(maxId, fromId) => IsMax(s.flags, Some(maxId)) && FlaggedUpTo(s.flags, fromId + BATCH_SIZE, ver)
  }

  /** What holds of one invocation in every run without `Abort`; of the flags it holds only if no batch
      takes effect late. */
  ghost predicate ProcOk(c: Config, s: State, p: Pid)
    requires p in s.procs
  {
    match s.procs[p].phase
    case ConfirmSent(_, effect) =>
      effect.touched ==> Held(s, p, effect.at) && effect.at <= s.now <= effect.at + c.latency
    case Confirmed(_, at) => Held(s, p, at) && at <= s.now <= at + c.latency
    case Timer(_, at, firstTick) => Held(s, p, at) && at <= firstTick <= s.now <= at + c.latency
    case Sweeping(ver, sw) =>
      && Owns(s, p) && s.lease.value.syncedAt <= s.now
      && TimingOk(c, s.now, s.lease.value.syncedAt, sw)
      && (c.late || ProgressOk(s, ver, sw.progress))
    case Swept(ver, ok) => ok && Owns(s, p) ==> c.late || AllFlagged(s.flags, ver)
    case Publishing(ver) => Owns(s, p) ==> c.late || AllFlagged(s.flags, ver)
    case _ => true
  }

  ghost predicate Inv(c: Config, s: State) {
    forall p :: p in s.procs ==> ProcOk(c, s, p)
  }

  /** Phases in which an invocation must own the lease. */
  predicate Holds(proc: Proc) {
    || (proc.phase.ConfirmSent? && proc.phase.effect.touched)
    || proc.phase.Confirmed? || proc.phase.Timer? || proc.phase.Sweeping?
  }

  lemma HolderOwns(c: Config, s: State, p: Pid)
    requires p in s.procs && ProcOk(c, s, p) && Holds(s.procs[p])
    ensures Owns(s, p)
  {}

  lemma ExclusiveFromInv(c: Config, s: State)
    requires Inv(c, s)
    ensures Exclusive(s)
  {
    forall p, q | IsSweeping(s, p) && IsSweeping(s, q) ensures p == q {
      HolderOwns(c, s, p);
      HolderOwns(c, s, q);
    }
  }

  /** While someone must own the lease, it is not stale. */
  lemma HolderFresh(c: Config, s: State, p: Pid)
    requires Fits(c) && p in s.procs && ProcOk(c, s, p) && Holds(s.procs[p])
    ensures !Stale(c, s)
  {
    hide TimingOk;
    if s.procs[p].phase.Sweeping? {
      InTimeIsFresh(c, s.now, s.lease.value.syncedAt, s.procs[p].phase.sweep);
    }
  }

  /** A step of `p` leaves what is known of another invocation intact, provided it does not take
      the lease from it, give it the lease, or touch the rows it has swept. */
  lemma Frame(c: Config, s: State, s': State, q: Pid)
    requires q in s.procs && q in s'.procs && s'.procs[q] == s.procs[q] && ProcOk(c, s, q)
    requires s'.now == s.now
    requires Holds(s.procs[q]) ==> s'.lease == s.lease
    requires Owns(s', q) ==> Owns(s, q)
    requires s'.flags == s.flags || !Owns(s, q) || c.late
    ensures ProcOk(c, s', q)
  {
    if Holds(s.procs[q]) { HolderOwns(c, s, q); }
  }

  /** What a step of `p` may do to the shared rows: it changes the lease only when it owned it or
      nobody fresh did, gives it to nobody but itself, and flags rows only while it owns it. */
  ghost predicate Polite(c: Config, s: State, s': State, p: Pid) {
    && s'.now == s.now && p in s'.procs
    && s'.procs == s.procs[p := s'.procs[p]]
    && (s'.lease == s.lease || Owns(s, p) || Stale(c, s))
    && (s'.lease == s.lease || s'.lease.None? || Owns(s', p))
    && (s'.flags == s.flags || Owns(s, p))
  }

  lemma OthersOk(c: Config, s: State, s': State, p: Pid)
    requires Fits(c) && Inv(c, s) && p in s.procs && Polite(c, s, s', p)
    ensures forall q :: q in s'.procs && q != p ==> ProcOk(c, s', q)
  {
    hide ProcOk;
    forall q | q in s'.procs && q != p ensures ProcOk(c, s', q) {
      if Holds(s.procs[q]) {
        HolderOwns(c, s, q);
        HolderFresh(c, s, q);
      }
      Frame(c, s, s', q);
    }
  }

  lemma AcquireOk(c: Config, s: State, p: Pid, a: Action, s': State)
    requires Fits(c) && p in s.procs && ProcOk(c, s, p) && Acquire(c, s, p, a) == Some(s')
    ensures Polite(c, s, s', p) && ProcOk(c, s', p)
  {
    hide TimingOk, Outlived;
    if s.procs[p].phase.Timer? && a == BeginSweep {
      StartInTime(c, s.now, s.procs[p].phase.at, s.procs[p].phase.firstTick, s.lease.value.syncedAt);
    }
  }

  lemma StartInTime(c: Config, now: int, at: int, firstTick: int, synced: int)
    requires c.renew >= 1 && at <= firstTick <= now <= at + c.latency && at <= synced
    ensures TimingOk(c, now, synced, Sweep(now, firstTick, Idle, NeedMax))
  {}

  lemma ReplyInTime(c: Config, now: int, synced: int, sw: Sweep)
    requires c.renew >= 1 && Elapsed(now, now) < c.abort
    requires TimingOk(c, now, synced, sw) && sw.renewal.InFlight? && sw.renewal.effect.Some?
    ensures TimingOk(c, now, synced, sw.(lastConfirmed := now, renewal := Idle))
  {}

  lemma FailInTime(c: Config, now: int, synced: int, sw: Sweep)
    requires c.renew >= 1 && TimingOk(c, now, synced, sw) && sw.renewal.InFlight?
    requires Elapsed(now, sw.lastConfirmed) < c.abort
    ensures TimingOk(c, now, synced, sw.(renewal := Idle))
  {}

  lemma TickInTime(c: Config, now: int, synced: int, sw: Sweep)
    requires c.renew >= 1 && TimingOk(c, now, synced, sw) && sw.renewal.Idle? && sw.nextTick <= now
    ensures var r := InFlight(now, now + Budget(c, now, sw.lastConfirmed) * SEC, None);
      TimingOk(c, now, synced, sw.(nextTick := sw.nextTick + Interval(c), renewal := r))
  {}

  /** The renewal takes effect. */
  lemma RunInTime(c: Config, now: int, synced: int, sw: Sweep)
    requires TimingOk(c, now, synced, sw) && sw.renewal.InFlight? && synced <= now
    ensures TimingOk(c, now, now, sw.(renewal := sw.renewal.(effect := Some(Effect(now, true)))))
  {}

  lemma WaitInTime(c: Config, now: int, synced: int, sw: Sweep, now': int)
    requires TimingOk(c, now, synced, sw) && now <= now'
    requires match sw.renewal
      case Idle => now' <= sw.nextTick || now' == now
      case InFlight(_, timeoutAt, effect) =>
        now' <= timeoutAt && (effect.Some? ==> now' <= effect.value.at + c.latency)
    ensures TimingOk(c, now', synced, sw)
  {}

  lemma RefreshInTime(c: Config, now: int, synced: int, sw: Sweep, synced': int)
    requires TimingOk(c, now, synced, sw) && synced <= synced'
    ensures TimingOk(c, now, synced', sw)
  {}

  lemma InTimeIsFresh(c: Config, now: int, synced: int, sw: Sweep)
    requires c.renew >= 1 && TimingOk(c, now, synced, sw)
    ensures now <= synced + Outlived(c)
  {}

  lemma FlaggedBatch(flags: map<int, Version>, maxId: int, fromId: int, ver: Version)
    requires IsMax(flags, Some(maxId)) && FlaggedUpTo(flags, fromId, ver)
    ensures FlaggedUpTo(Flagged(flags, fromId, ver), fromId + BATCH_SIZE, ver)
    ensures IsMax(Flagged(flags, fromId, ver), Some(maxId))
  {
    assert forall k :: k in flags <==> k in Flagged(flags, fromId, ver);
  }

  lemma BatchOk(c: Config, s: State, p: Pid, ver: Version, sw: Sweep, a: Action, s': State)
    requires Fits(c) && p in s.procs && s.procs[p].phase == Sweeping(ver, sw) && a.RunBatch?
    requires ProcOk(c, s, p) && DoSweep(c, s, p, ver, sw, a) == Some(s')
    ensures Polite(c, s, s', p) && ProcOk(c, s', p)
  {
    hide Flagged, LastTickOk, Outlived, IsMax, FlaggedUpTo;
    if !c.late {
      FlaggedBatch(s.flags, sw.progress.maxId, sw.progress.fromId, ver);
    }
  }

  lemma DoSweepOk(c: Config, s: State, p: Pid, ver: Version, sw: Sweep, a: Action, s': State)
    requires Fits(c) && p in s.procs && s.procs[p].phase == Sweeping(ver, sw)
    requires ProcOk(c, s, p) && DoSweep(c, s, p, ver, sw, a) == Some(s')
    ensures Polite(c, s, s', p) && ProcOk(c, s', p)
  {
    hide Flagged, LastTickOk, Outlived, Superseded;
    if a.RunBatch? { BatchOk(c, s, p, ver, sw, a, s'); }
  }

  lemma AfterAttemptOk(c: Config, s: State, p: Pid, ver: Version, sw: Sweep)
    requires Fits(c) && p in s.procs && Owns(s, p) && s.lease.value.syncedAt <= s.now
    requires Elapsed(s.now, sw.lastConfirmed) < c.abort ==>
      TimingOk(c, s.now, s.lease.value.syncedAt, sw.(renewal := Idle))
    requires c.late || ProgressOk(s, ver, sw.progress)
    ensures Polite(c, s, AfterAttempt(c, s, p, ver, sw), p) && ProcOk(c, AfterAttempt(c, s, p, ver, sw), p)
  {
    hide TimingOk, Elapsed;
  }

  lemma SameFlags(c: Config, s: State, s': State, ver: Version, progress: Progress)
    requires s'.flags == s.flags
    ensures ProgressOk(s', ver, progress) == ProgressOk(s, ver, progress)
  {}

  lemma TickOk(c: Config, s: State, p: Pid, ver: Version, sw: Sweep, s': State)
    requires Fits(c) && p in s.procs && s.procs[p].phase == Sweeping(ver, sw) && sw.renewal.Idle?
    requires ProcOk(c, s, p) && Renew(c, s, p, ver, sw, Tick) == Some(s')
    ensures Polite(c, s, s', p) && ProcOk(c, s', p)
  {
    SameFlags(c, s, s', ver, sw.progress);
    hide ProgressOk, AllFlagged, TimingOk, Budget, Outlived;
    TickInTime(c, s.now, s.lease.value.syncedAt, sw);
  }

  lemma RenewRunOk(c: Config, s: State, p: Pid, ver: Version, sw: Sweep, s': State)
    requires Fits(c) && p in s.procs && s.procs[p].phase == Sweeping(ver, sw)
    requires ProcOk(c, s, p) && Renew(c, s, p, ver, sw, RenewRun) == Some(s')
    ensures Polite(c, s, s', p) && ProcOk(c, s', p)
  {
    SameFlags(c, s, s', ver, sw.progress);
    hide ProgressOk, AllFlagged, TimingOk, Outlived;
    RunInTime(c, s.now, s.lease.value.syncedAt, sw);
  }

  lemma RenewOk(c: Config, s: State, p: Pid, ver: Version, sw: Sweep, a: Action, s': State)
    requires Fits(c) && p in s.procs && s.procs[p].phase == Sweeping(ver, sw)
    requires ProcOk(c, s, p) && Renew(c, s, p, ver, sw, a) == Some(s')
    ensures Polite(c, s, s', p) && ProcOk(c, s', p)
  {
    hide ProgressOk, AllFlagged, Elapsed, Budget, TimingOk, Outlived;
    var synced := s.lease.value.syncedAt;
    if a == Tick {
      TickOk(c, s, p, ver, sw, s');
    } else if a == RenewRun {
      RenewRunOk(c, s, p, ver, sw, s');
    } else if a == RenewReply {
      if Elapsed(s.now, s.now) < c.abort { ReplyInTime(c, s.now, synced, sw); }
      if sw.renewal.effect.value.touched { AfterAttemptOk(c, s, p, ver, sw.(lastConfirmed := s.now)); }
    } else if a == RenewError || a == RenewTimeout {
      SameFlags(c, s, DropRenewal(s, p, sw.renewal), ver, sw.progress);
      if Elapsed(s.now, sw.lastConfirmed) < c.abort { FailInTime(c, s.now, synced, sw); }
      AfterAttemptOk(c, DropRenewal(s, p, sw.renewal), p, ver, sw);
    }
  }

  lemma ConcludeOk(c: Config, s: State, p: Pid, a: Action, s': State)
    requires Fits(c) && p in s.procs && ProcOk(c, s, p) && Conclude(c, s, p, a) == Some(s')
    ensures Polite(c, s, s', p) && ProcOk(c, s', p)
  {}

  lemma WaitOne(c: Config, s: State, p: Pid, s': State)
    requires Fits(c) && p in s.procs && ProcOk(c, s, p)
    requires s.now <= s'.now && s' == s.(now := s'.now)
    requires Deadline(c, s.procs[p]).Some? ==> s'.now <= Deadline(c, s.procs[p]).value
    ensures ProcOk(c, s', p)
  {
    hide ProgressOk, AllFlagged, TimingOk, Outlived;
    SameProgress(c, s, p, s');
    if s.procs[p].phase.Sweeping? {
      WaitInTime(c, s.now, s.lease.value.syncedAt, s.procs[p].phase.sweep, s'.now);
    }
  }

  lemma SameProgress(c: Config, s: State, p: Pid, s': State)
    requires p in s.procs && s' == s.(now := s'.now)
    ensures var ph := s.procs[p].phase; ph.Sweeping? ==>
      ProgressOk(s', ph.ver, ph.sweep.progress) == ProgressOk(s, ph.ver, ph.sweep.progress)
  {}

  lemma WaitOk(c: Config, s: State, dt: int, s': State)
    requires Fits(c) && Inv(c, s) && Step(c, s, Advance(dt)) == Some(s')
    ensures Inv(c, s')
  {
    hide ProcOk, Deadline;
    forall p | p in s'.procs ensures ProcOk(c, s', p) {
      assert ProcOk(c, s, p);
      WaitOne(c, s, p, s');
    }
  }

  lemma InvStep(c: Config, s: State, l: Label, s': State)
    requires Fits(c) && Inv(c, s) && Step(c, s, l) == Some(s')
    ensures Inv(c, s')
  {
    match l
    case Advance(dt) => WaitOk(c, s, dt, s');
    case Spawn(p) => SpawnOk(c, s, p, s');
    case Stray(p) =>
      StrayOk(c, s, p, s');
      OthersOk(c, s, s', p);
    case Late(b) => LateOk(c, s, s');
    case Act(p, a) =>
      assert ProcOk(c, s, p);
      match s.procs[p].phase {
        case Sweeping(ver, sw) =>
          if a.ReadMax? || a.RunBatch? || a.CheckBatch? { DoSweepOk(c, s, p, ver, sw, a, s'); }
          else { RenewOk(c, s, p, ver, sw, a, s'); }
        case Swept(_, _) => ConcludeOk(c, s, p, a, s');
        case Publishing(_) => ConcludeOk(c, s, p, a, s');
        case PublishSent(_, _) => ConcludeOk(c, s, p, a, s');
        case Releasing(_) => ConcludeOk(c, s, p, a, s');
        case _ => AcquireOk(c, s, p, a, s');
      }
      OthersOk(c, s, s', p);
    case _ => SameRows(c, s, s');
  }

  lemma Begins(c: Config, s: State, p: Pid)
    requires p in s.procs && s.procs[p].phase == Begin
    ensures ProcOk(c, s, p)
  {}

  lemma SpawnOk(c: Config, s: State, p: Pid, s': State)
    requires Fits(c) && Inv(c, s) && Step(c, s, Spawn(p)) == Some(s')
    ensures Inv(c, s')
  {
    Begins(c, s', p);
    hide ProcOk;
    forall q | q in s'.procs ensures ProcOk(c, s', q) {
      if q != p { Frame(c, s, s', q); }
    }
  }

  lemma StrayOk(c: Config, s: State, p: Pid, s': State)
    requires Fits(c) && Inv(c, s) && Step(c, s, Stray(p)) == Some(s')
    ensures p in s.procs && Polite(c, s, s', p) && ProcOk(c, s', p)
  {
    assert ProcOk(c, s, p);
    hide Inv, Elapsed, Budget, TimingOk, Outlived;
    if s.procs[p].phase.Sweeping? {
      RefreshInTime(c, s.now, s.lease.value.syncedAt, s.procs[p].phase.sweep, s.now);
    }
  }

  lemma LateOk(c: Config, s: State, s': State)
    requires Inv(c, s) && c.late
    requires s'.procs == s.procs && s'.now == s.now && s'.lease == s.lease
    ensures Inv(c, s')
  {
    hide ProcOk;
    forall p | p in s'.procs ensures ProcOk(c, s', p) {
      Frame(c, s, s', p);
    }
  }

  lemma SameRows(c: Config, s: State, s': State)
    requires Inv(c, s) && s'.procs == s.procs && s'.now == s.now && s'.lease == s.lease && s'.flags == s.flags
    ensures Inv(c, s')
  {
    hide ProcOk;
    forall p | p in s'.procs ensures ProcOk(c, s', p) {
      Frame(c, s, s', p);
    }
  }

  lemma {:induction false} InvAlong(c: Config, states: seq<State>, labels: seq<Label>, i: nat)
    requires Fits(c) && Run(c, states, labels) && i < |states|
    ensures Inv(c, states[i])
  {
    if i > 0 {
      InvAlong(c, states, labels, i - 1);
      assert Step(c, states[i - 1], labels[i - 1]) == Some(states[i]);
      InvStep(c, states[i - 1], labels[i - 1], states[i]);
    }
  }

  /** Some run ends in `s`. */
  ghost predicate Reaches(c: Config, s: State) {
    exists states, labels :: Run(c, states, labels) && states[|labels|] == s
  }

  lemma ReachInv(c: Config, s: State)
    requires Fits(c) && Reaches(c, s)
    ensures Inv(c, s)
  {
    var states, labels :| Run(c, states, labels) && states[|labels|] == s;
    InvAlong(c, states, labels, |labels|);
  }

  /** Two invocations never sweep at the same time. */
  ghost predicate AlwaysExclusive(c: Config) {
    forall s :: Reaches(c, s) ==> Exclusive(s)
  }

  /** The completion marker is truthful: when it is written for a version, every media row carries
      the flag computed for that version. */
  ghost predicate AlwaysConverged(c: Config) {
    forall s, p, s' :: Reaches(c, s) && Step(c, s, Act(p, PublishRun)) == Some(s') && Owns(s, p)
      ==> s'.marker.Some? && AllFlagged(s'.flags, s'.marker.value)
  }

  lemma SafeWhenFits(c: Config)
    requires Fits(c)
    ensures AlwaysExclusive(c) && (!c.late ==> AlwaysConverged(c))
  {
    hide Reaches;
    forall s | Reaches(c, s) ensures Exclusive(s) {
      ReachInv(c, s);
      ExclusiveFromInv(c, s);
    }
    forall s, p, s' | !c.late && Reaches(c, s) && Step(c, s, Act(p, PublishRun)) == Some(s') && Owns(s, p)
      ensures s'.marker.Some? && AllFlagged(s'.flags, s'.marker.value)
    {
      ReachInv(c, s);
      assert ProcOk(c, s, p);
    }
  }

  // ---------------------------------------------------------------- the condition is exact

  lemma ReachStart(c: Config, s: State)
    requires s.procs == map[] && s.late == {}
    ensures Reaches(c, s)
  {
    var states, labels: seq<Label> := [s], [];
    assert Run(c, states, labels) && states[|labels|] == s;
  }

  lemma ReachStep(c: Config, s: State, l: Label, s': State)
    requires Reaches(c, s) && Step(c, s, l) == Some(s')
    ensures Reaches(c, s')
  {
    hide Step;
    var states, labels :| Run(c, states, labels) && states[|labels|] == s;
    var states', labels' := states + [s'], labels + [l];
    forall i | 0 <= i < |labels'| ensures Step(c, states'[i], labels'[i]) == Some(states'[i + 1]) {
      if i < |labels| {
        assert states'[i] == states[i] && labels'[i] == labels[i] && states'[i + 1] == states[i + 1];
      } else {
        assert states'[i] == s && labels'[i] == l && states'[i + 1] == s';
      }
    }
    assert Run(c, states', labels');
    assert states'[|labels'|] == s';
  }

  lemma ReachAct(c: Config, s: State, p: Pid, a: Action, s': State)
    requires Reaches(c, s) && p in s.procs && Do(c, s, p, a) == Some(s')
    ensures Reaches(c, s')
  {
    hide Reaches, Do;
    ReachStep(c, s, Act(p, a), s');
  }

  /** An invocation at the start of an attempt that finds the lease stale can take it and confirm
      it within the instant. */
  lemma ReachConfirmed(c: Config, s: State, p: Pid, s': State)
    requires Reaches(c, s) && p in s.procs && s.procs[p].phase == Begin
    requires Stale(c, s) && s.marker != Some(s.live) && s.request == None
    requires s' == To(s.(lease := Some(Lease(p, s.now))), p, Confirmed(s.live, s.now))
    ensures Reaches(c, s')
  {
    hide Reaches;
    var s3 := To(s.(lease := Some(Lease(p, s.now))), p, ClaimSent(s.live, true));
    ReachClaim(c, s, p, s3);
    var s6 := To(s3, p, Confirming(s.live));
    ReachConfirming(c, s3, p, s6);
    var s7 := To(s3, p, ConfirmSent(s.live, Effect(s.now, true)));
    assert s7 == To(Refresh(s6, p), p, ConfirmSent(s.live, Effect(s.now, true)));
    ReachAct(c, s6, p, ConfirmRun, s7);
    assert s' == To(s7, p, Confirmed(s.live, s.now));
    ReachAct(c, s7, p, ConfirmReply(true), s');
  }

  lemma ReachClaim(c: Config, s: State, p: Pid, s': State)
    requires Reaches(c, s) && p in s.procs && s.procs[p].phase == Begin
    requires Stale(c, s) && s.marker != Some(s.live)
    requires s' == To(s.(lease := Some(Lease(p, s.now))), p, ClaimSent(s.live, true))
    ensures Reaches(c, s')
  {
    hide Reaches;
    var s1 := To(s, p, Loaded(s.live));
    ReachAct(c, s, p, Load(true), s1);
    var s2 := To(s, p, WantClaim(s.live));
    assert s2 == To(s1, p, WantClaim(s.live));
    ReachAct(c, s1, p, CheckMarker(true), s2);
    assert s' == To(s2.(lease := Some(Lease(p, s.now))), p, ClaimSent(s.live, true));
    ReachAct(c, s2, p, ClaimRun, s');
  }

  lemma ReachConfirming(c: Config, s: State, p: Pid, s': State)
    requires Reaches(c, s) && p in s.procs && s.procs[p].phase.ClaimSent? && s.procs[p].phase.won
    requires s.marker != Some(s.procs[p].phase.ver) && s.request == None
    requires s' == To(s, p, Confirming(s.procs[p].phase.ver))
    ensures Reaches(c, s')
  {
    hide Reaches;
    var ver := s.procs[p].phase.ver;
    var s1 := To(s, p, Claimed(ver));
    ReachAct(c, s, p, ClaimReply(true), s1);
    var s2 := To(s, p, Rechecked(ver));
    assert s2 == To(s1, p, Rechecked(ver));
    ReachAct(c, s1, p, Recheck(true), s2);
    assert s' == To(s2, p, Confirming(ver));
    ReachAct(c, s2, p, CheckRequest(true), s');
  }

  /** From a confirmed lease straight into the first batch. */
  lemma ReachFirstBatch(c: Config, s: State, p: Pid, max: int, s': State)
    requires Reaches(c, s) && p in s.procs && s.procs[p].phase.Timer?
    requires IsMax(s.flags, Some(max))
    requires var ph := s.procs[p].phase;
      s' == To(s, p, Sweeping(ph.ver, Sweep(s.now, ph.firstTick, Idle, Batch(max, 0))))
    ensures Reaches(c, s')
  {
    hide Reaches;
    var ph := s.procs[p].phase;
    var s1 := To(s, p, Sweeping(ph.ver, Sweep(s.now, ph.firstTick, Idle, NeedMax)));
    ReachStep(c, s, Act(p, BeginSweep), s1);
    assert s' == To(s1, p, Sweeping(ph.ver, Sweep(s.now, ph.firstTick, Idle, Batch(max, 0))));
    ReachStep(c, s1, Act(p, ReadMax(true, Some(max))), s');
  }

  /** One media row and one invocation, which sweeps for version 1 and is before its first batch. It has
      refreshed the lease at `at` and noted that at `confirmed`. */
  ghost function Lonely(at: int, confirmed: int, now: int, nextTick: int, renewal: Renewal, strays: nat): State {
    State(now, Some(Lease(0, at)), None, None, 1, map[1 := 0],
      map[0 := Proc(1, Sweeping(1, Sweep(confirmed, nextTick, renewal, Batch(1, 0))), strays)], {})
  }

  /** An invocation that confirms its claim at instant 0, creates its timer at `tick` and starts
      its sweep at `start`. */
  lemma ReachLonely(c: Config, tick: nat, start: nat)
    requires tick <= start <= c.latency
    ensures Reaches(c, Lonely(0, start, start, tick, Idle, 0))
  {
    hide Reaches;
    var s := State(0, None, None, None, 1, map[1 := 0], map[], {});
    ReachStart(c, s);
    var s1 := s.(procs := s.procs[0 := Proc(1, Begin, 0)]);
    ReachStep(c, s, Spawn(0), s1);
    var s2 := To(s1.(lease := Some(Lease(0, 0))), 0, Confirmed(1, 0));
    ReachConfirmed(c, s1, 0, s2);
    ReachTimer(c, s2, 0, tick, start);
    var s5 := To(s2.(now := start), 0, Timer(1, 0, tick));
    var s6 := Lonely(0, start, start, tick, Idle, 0);
    assert s6 == To(s5, 0, Sweeping(1, Sweep(start, tick, Idle, Batch(1, 0))));
    ReachFirstBatch(c, s5, 0, 1, s6);
  }

  /** Within the latency the timer may be created and the sweep started at any time. */
  lemma ReachTimer(c: Config, s: State, p: Pid, tick: nat, start: nat)
    requires Reaches(c, s) && tick <= start <= c.latency && s.now == 0
    requires p in s.procs && s.procs.Keys == {p} && s.procs[p].phase.Confirmed? && s.procs[p].phase.at == 0
    ensures Reaches(c, To(s.(now := start), p, Timer(s.procs[p].phase.ver, 0, tick)))
  {
    hide Reaches;
    var ver := s.procs[p].phase.ver;
    var s1 := s.(now := tick);
    ReachStep(c, s, Advance(tick), s1);
    var s2 := To(s1, p, Timer(ver, 0, tick));
    ReachAct(c, s1, p, MakeTimer, s2);
    ReachStep(c, s2, Advance(start - tick), s2.(now := start));
    assert s2.(now := start) == To(s.(now := start), p, Timer(ver, 0, tick));
  }

  lemma ReachTicked(c: Config, at: int, confirmed: int, now: int, nextTick: int, strays: nat, timeoutAt: int)
    requires Reaches(c, Lonely(at, confirmed, now, nextTick, Idle, strays))
    requires nextTick <= now && timeoutAt == now + Budget(c, now, confirmed) * SEC
    ensures Reaches(c, Lonely(at, confirmed, now, nextTick + Interval(c), InFlight(now, timeoutAt, None), strays))
  {
    hide Reaches, Budget, Elapsed;
    var s := Lonely(at, confirmed, now, nextTick, Idle, strays);
    var s' := Lonely(at, confirmed, now, nextTick + Interval(c), InFlight(now, timeoutAt, None), strays);
    assert s' == To(s, 0, s'.procs[0].phase);
    ReachAct(c, s, 0, Tick, s');
  }

  lemma ReachFailed(c: Config, at: int, confirmed: int, now: int, nextTick: int, strays: nat, timeoutAt: int)
    requires Reaches(c, Lonely(at, confirmed, now, nextTick, InFlight(now, timeoutAt, None), strays))
    requires Elapsed(now, confirmed) < c.abort
    ensures Reaches(c, Lonely(at, confirmed, now, nextTick, Idle, strays + 1))
  {
    hide Reaches, Elapsed;
    var s := Lonely(at, confirmed, now, nextTick, InFlight(now, timeoutAt, None), strays);
    var s' := Lonely(at, confirmed, now, nextTick, Idle, strays + 1);
    assert s' == To(AddStray(s, 0), 0, s'.procs[0].phase);
    ReachAct(c, s, 0, RenewError, s');
  }

  /** Time passes up to a deadline of the invocation. */
  lemma ReachWaited(c: Config, s: State, now: int)
    requires Reaches(c, s) && s.procs.Keys == {0} && s.now <= now
    requires Deadline(c, s.procs[0]).Some? && now <= Deadline(c, s.procs[0]).value
    ensures Reaches(c, s.(now := now))
  {
    hide Reaches, Deadline;
    assert s.now + (now - s.now) == now;
    ReachStep(c, s, Advance(now - s.now), s.(now := now));
  }

  /** A renewal that fails at once at a tick before the abort deadline, and the wait for the next
      tick. */
  lemma ReachNextTick(c: Config, at: int, confirmed: int, now: int, nextTick: int, strays: nat)
    requires Reaches(c, Lonely(at, confirmed, now, nextTick, Idle, strays))
    requires nextTick <= now <= nextTick + Interval(c) && confirmed <= now < confirmed + Window(c)
    ensures var next := nextTick + Interval(c); Reaches(c, Lonely(at, confirmed, next, next, Idle, strays + 1))
  {
    hide Reaches, Budget;
    var timeoutAt := now + Budget(c, now, confirmed) * SEC;
    ReachTicked(c, at, confirmed, now, nextTick, strays, timeoutAt);
    var next := nextTick + Interval(c);
    ReachFailed(c, at, confirmed, now, next, strays, timeoutAt);
    ReachWaited(c, Lonely(at, confirmed, now, next, Idle, strays + 1), next);
  }

  /** The sweep starts `start` behind the timer, its first renewal takes effect `wait` later, and is confirmed
      after another `lag`. */
  lemma ReachRenewed(c: Config, start: nat, wait: nat, lag: nat)
    requires c.abort >= 1 && start <= c.latency && lag <= c.latency && wait + lag <= Window(c)
    ensures var at := start + wait; Reaches(c, Lonely(at, at + lag, at + lag, Interval(c), Idle, 0))
  {
    hide Reaches, Budget;
    ReachLonely(c, 0, start);
    var (next, timeoutAt, at) := (Interval(c), start + Window(c), start + wait);
    FullBudget(c, start);
    ReachTicked(c, 0, start, start, 0, 0, timeoutAt);
    var s := Lonely(0, start, start, next, InFlight(start, timeoutAt, None), 0);
    ReachWaited(c, s, at);
    var s1 := Lonely(at, start, at, next, InFlight(start, timeoutAt, Some(Effect(at, true))), 0);
    ReachEffect(c, 0, start, at, next, start, timeoutAt, s1);
    ReachWaited(c, s1, at + lag);
    ReachReply(c, s1.(now := at + lag), Lonely(at, at + lag, at + lag, next, Idle, 0));
  }

  lemma FullBudget(c: Config, now: int)
    requires c.abort >= 1
    ensures Budget(c, now, now) == c.abort
  {}

  lemma ReachEffect(c: Config, at: int, confirmed: int, now: int, nextTick: int, startedAt: int, timeoutAt: int, s': State)
    requires Reaches(c, Lonely(at, confirmed, now, nextTick, InFlight(startedAt, timeoutAt, None), 0))
    requires s' == Lonely(now, confirmed, now, nextTick, InFlight(startedAt, timeoutAt, Some(Effect(now, true))), 0)
    ensures Reaches(c, s')
  {
    hide Reaches;
    var s := Lonely(at, confirmed, now, nextTick, InFlight(startedAt, timeoutAt, None), 0);
    assert s' == To(Refresh(s, 0), 0, s'.procs[0].phase);
    ReachAct(c, s, 0, RenewRun, s');
  }

  lemma ReachReply(c: Config, s: State, s': State)
    requires Reaches(c, s) && c.abort >= 1 && s.procs.Keys == {0} && s.procs[0].phase.Sweeping?
    requires var sw := s.procs[0].phase.sweep;
      && sw.renewal.InFlight? && sw.renewal.effect.Some? && sw.renewal.effect.value.touched
      && s' == To(s, 0, Sweeping(s.procs[0].phase.ver, sw.(lastConfirmed := s.now, renewal := Idle)))
    ensures Reaches(c, s')
  {
    hide Reaches;
    assert Elapsed(s.now, s.now) == 0;
    ReachAct(c, s, 0, RenewReply, s');
  }

  /** A confirmation `lag` behind its tick, `delay` behind the refresh of the lease: late from the start, or
      for a late first renewal. */
  lemma ReachPhase(c: Config, lag: nat) returns (at: nat, delay: nat, n: nat)
    requires c.abort >= 1 && 1 <= lag <= Interval(c) && lag <= Window(c) + c.latency
    ensures delay == if lag <= c.latency then c.latency else Min(c.latency, Window(c))
    ensures var confirmed, tick := at + delay, at + delay - lag + Interval(c);
      Reaches(c, Lonely(at, confirmed, tick, tick, Idle, n))
  {
    hide Reaches;
    if lag <= c.latency {
      at, delay, n := 0, c.latency, 1;
      ReachLonely(c, c.latency - lag, c.latency);
      ReachNextTick(c, 0, c.latency, c.latency, c.latency - lag, 0);
    } else {
      delay, n := Min(c.latency, Window(c)), 0;
      var wait := Min(lag, Window(c)) - delay;
      var start := lag - wait - delay;
      at := start + wait;
      ReachRenewed(c, start, wait, delay);
      ReachWaited(c, Lonely(at, lag, lag, Interval(c), Idle, 0), Interval(c));
    }
  }

  /** All ticks up to the last one whose deadline test still passes, one nanosecond early. */
  lemma {:induction false} ReachLastTick(c: Config, at: int, confirmed: int, k: nat, left: int, strays: nat) returns (n: nat)
    requires c.renew >= 1 && left == k * c.renew && left < c.abort
    requires var tick := confirmed - 1 + (c.abort - left) * SEC; Reaches(c, Lonely(at, confirmed, tick, tick, Idle, strays))
    ensures var tick := confirmed - 1 + c.abort * SEC; Reaches(c, Lonely(at, confirmed, tick, tick, Idle, n))
    decreases k
  {
    hide Reaches;
    if k == 0 { return strays; }
    var tick := confirmed - 1 + (c.abort - left) * SEC;
    ReachNextTick(c, at, confirmed, tick, tick, strays);
    assert left - c.renew == (k - 1) * c.renew;
    assert tick + Interval(c) == confirmed - 1 + (c.abort - (left - c.renew)) * SEC;
    n := ReachLastTick(c, at, confirmed, k - 1, left - c.renew, strays + 1);
  }

  /** The lonely sweep, its last renewal waiting to time out. */
  ghost predicate Outlives(c: Config, s: State, at: int) {
    && Reaches(c, s) && s.now == at + Outlived(c) && s.lease == Some(Lease(0, at))
    && s.marker == None && s.request == None && s.flags == map[1 := 0] && s.procs.Keys == {0}
    && s.procs[0].phase.Sweeping? && s.procs[0].phase.ver == 1
    && s.procs[0].phase.sweep.progress == Batch(1, 0) && s.procs[0].phase.sweep.renewal.InFlight?
  }

  /** At a tick less than a second before the abort deadline, or behind it, one more renewal is tried for a
      second. */
  lemma ReachTimeout(c: Config, at: int, confirmed: int, tick: int, nextTick: int, strays: nat) returns (s: State)
    requires nextTick <= tick && Elapsed(tick, confirmed) >= c.abort - 1
    requires Reaches(c, Lonely(at, confirmed, tick, nextTick, Idle, strays))
    requires tick + SEC == at + Outlived(c)
    ensures Outlives(c, s, at)
  {
    hide Reaches, Outlived, Elapsed;
    assert Budget(c, tick, confirmed) == 1;
    ReachTicked(c, at, confirmed, tick, nextTick, strays, tick + SEC);
    var s1 := Lonely(at, confirmed, tick, nextTick + Interval(c), InFlight(tick, tick + SEC, None), strays);
    s := s1.(now := tick + SEC);
    ReachWaited(c, s1, tick + SEC);
  }

  /** A tick comes a nanosecond before the deadline, and the next one an interval later. */
  lemma ReachLate(c: Config) returns (s: State, at: nat)
    requires c.renew >= 1 && c.abort >= 1
    requires LateStart(c) || (LateReply(c) && Min(c.latency, Window(c)) + Window(c) - 1 >= c.latency)
    ensures Outlives(c, s, at)
  {
    hide Reaches, Outlives, Outlived, LateStart, LateReply;
    var k, left, first := TicksBefore(c);
    var lag := (c.renew - first) * SEC + 1;
    var delay, n;
    LagFits(c, first, lag);
    at, delay, n := ReachPhase(c, lag);
    var confirmed := at + delay;
    n := ReachLastTick(c, at, confirmed, k, left, n);
    var last := confirmed - 1 + Window(c);
    ReachNextTick(c, at, confirmed, last, last, n);
    LateOutlives(c, lag, delay, first);
    s := ReachTimeout(c, at, confirmed, last + Interval(c), last + Interval(c), n + 1);
  }

  /** The abort window is so many intervals, and a rest of at most one more. */
  lemma TicksBefore(c: Config) returns (k: nat, left: nat, first: nat)
    requires c.renew >= 1 && c.abort >= 1
    ensures left == k * c.renew && left + first == c.abort && 1 <= first <= c.renew
    ensures c.abort < c.renew ==> first == c.abort
  {
    k, first := (c.abort - 1) / c.renew, (c.abort - 1) % c.renew + 1;
    left := k * c.renew;
  }

  lemma LagFits(c: Config, first: nat, lag: int)
    requires c.abort >= 1 && 1 <= first <= c.renew && lag == (c.renew - first) * SEC + 1
    requires (c.abort < c.renew ==> first == c.abort) && (LateStart(c) || LateReply(c))
    ensures 1 <= lag <= Interval(c) && lag <= Window(c) + c.latency
  {}

  lemma LateOutlives(c: Config, lag: int, delay: int, first: int)
    requires c.renew >= 1 && c.abort >= 1 && 1 <= first <= c.renew && lag == (c.renew - first) * SEC + 1
    requires c.abort < c.renew ==> first == c.abort
    requires LateStart(c) || (LateReply(c) && Min(c.latency, Window(c)) + Window(c) - 1 >= c.latency)
    requires delay == if lag <= c.latency then c.latency else Min(c.latency, Window(c))
    ensures delay + Window(c) - 1 + Interval(c) + SEC == Outlived(c)
  {}

  /** The first renewal fails at once, and the one an interval later is the last. */
  lemma ReachPlain(c: Config) returns (s: State)
    requires c.abort >= 1 && Window(c) <= Interval(c) && Outlived(c) == c.latency + Interval(c) + SEC
    ensures Outlives(c, s, 0)
  {
    hide Reaches, Outlived, Outlives;
    ReachLonely(c, c.latency, c.latency);
    ReachNextTick(c, 0, c.latency, c.latency, c.latency, 0);
    var next := c.latency + Interval(c);
    s := ReachTimeout(c, 0, c.latency, next, next, 1);
  }

  lemma ReachOutlived(c: Config) returns (s: State, at: nat)
    requires c.renew >= 1
    ensures Outlives(c, s, at)
  {
    hide Reaches, Outlives;
    if c.abort == 0 {
      at := 0;
      ReachLonely(c, c.latency, c.latency);
      s := ReachTimeout(c, 0, c.latency, c.latency, c.latency, 0);
    } else if LateStart(c) || (LateReply(c) && Min(c.latency, Window(c)) + Window(c) - 1 >= c.latency) {
      s, at := ReachLate(c);
    } else {
      at := 0;
      s := ReachPlain(c);
    }
  }

  /** A second invocation, for newer keywords, that finds the lease stale and starts to sweep. */
  lemma ReachOverlap(c: Config, s: State, s': State)
    requires Reaches(c, s) && Stale(c, s) && s.marker == None && s.request == None
    requires s.procs.Keys == {0} && IsMax(s.flags, Some(1))
    requires s' == s.(live := 2, lease := Some(Lease(1, s.now)),
      procs := s.procs[1 := Proc(1, Sweeping(2, Sweep(s.now, s.now, Idle, Batch(1, 0))), 0)])
    ensures Reaches(c, s')
  {
    hide Reaches;
    var s1 := s.(live := 2);
    ReachStep(c, s, Edit(2), s1);
    var s2 := s1.(procs := s.procs[1 := Proc(1, Begin, 0)]);
    ReachStep(c, s1, Spawn(1), s2);
    var s3 := To(s2.(lease := Some(Lease(1, s.now))), 1, Confirmed(2, s.now));
    ReachConfirmed(c, s2, 1, s3);
    var s4 := To(s3, 1, Timer(2, s.now, s.now));
    ReachAct(c, s3, 1, MakeTimer, s4);
    assert s' == To(s4, 1, Sweeping(2, Sweep(s.now, s.now, Idle, Batch(1, 0))));
    ReachFirstBatch(c, s4, 1, 1, s');
  }

  /** When the constants do not fit, the second invocation may start inside the first one's sweep,
      finish, and publish after one more batch of the first. */
  lemma UnsafeTiming(c: Config)
    requires c.renew >= 1 && Outlived(c) > c.stale * SEC
    ensures !AlwaysExclusive(c) && !AlwaysConverged(c)
  {
    hide Reaches, Step;
    var s, at := ReachOutlived(c);
    Overtaken(c, s);
  }

  /** An unfenced deletion of the lease lets a second sweep start at any time, whatever the
      constants are. */
  lemma UnsafeAbort(c: Config)
    requires c.aborts
    ensures !AlwaysExclusive(c) && !AlwaysConverged(c)
  {
    hide AlwaysExclusive, AlwaysConverged;
    ReachLonely(c, 0, 0);
    var s := Lonely(0, 0, 0, 0, Idle, 0);
    var s' := s.(lease := None);
    ReachStep(c, s, Abort, s');
    Overtaken(c, s');
  }

  /** While the first invocation sweeps for version 1 its lease has become claimable: a second one
      sweeps for version 2, and publishes it after the first has flagged one more batch. */
  lemma Overtaken(c: Config, s: State)
    requires Reaches(c, s) && Stale(c, s) && s.marker == None && s.request == None
    requires s.flags == map[1 := 0] && s.procs.Keys == {0}
    requires s.procs[0].phase.Sweeping? && s.procs[0].phase.ver == 1
    requires s.procs[0].phase.sweep.progress == Batch(1, 0)
    ensures !AlwaysExclusive(c) && !AlwaysConverged(c)
  {
    hide Reaches, Step;
    var both := s.(live := 2, lease := Some(Lease(1, s.now)),
      procs := s.procs[1 := Proc(1, Sweeping(2, Sweep(s.now, s.now, Idle, Batch(1, 0))), 0)]);
    ReachOverlap(c, s, both);
    assert IsSweeping(both, 0) && IsSweeping(both, 1);
    var mixed := ReachMixedFlags(c, both);
    PublishMixed(c, mixed);
  }

  /** The second sweep runs to its end. */
  lemma ReachSecondSwept(c: Config, both: State, swept: State)
    requires Reaches(c, both) && both.live == 2 && both.request == None && 1 in both.procs
    requires both.procs[1].phase.Sweeping? && both.procs[1].phase.ver == 2
    requires both.procs[1].phase.sweep.progress == Batch(1, 0) && both.procs[1].phase.sweep.renewal == Idle
    requires swept == To(both.(flags := Flagged(both.flags, 0, 2)), 1, Swept(2, true))
    ensures Reaches(c, swept)
  {
    hide Reaches;
    var sw := both.procs[1].phase.sweep;
    var s1 := To(both.(flags := Flagged(both.flags, 0, 2)), 1, Sweeping(2, sw.(progress := Check(1, 0))));
    ReachAct(c, both, 1, RunBatch(true, true), s1);
    assert swept == To(s1, 1, Swept(2, true));
    ReachAct(c, s1, 1, CheckBatch(true, true), swept);
  }

  /** The second sweep ends, and the first flags one more batch. */
  lemma ReachMixedFlags(c: Config, both: State) returns (mixed: State)
    requires Reaches(c, both)
    requires both.live == 2 && both.request == None && both.flags == map[1 := 0]
    requires both.lease.Some? && both.lease.value.owner == 1 && both.procs.Keys == {0, 1}
    requires both.procs[0].phase.Sweeping? && both.procs[0].phase.ver == 1
    requires both.procs[0].phase.sweep.progress == Batch(1, 0)
    requires both.procs[1].phase.Sweeping? && both.procs[1].phase.ver == 2
    requires both.procs[1].phase.sweep.progress == Batch(1, 0)
    requires both.procs[1].phase.sweep.renewal == Idle
    ensures Reaches(c, mixed) && mixed.live == 2 && mixed.request == None && mixed.lease == both.lease
    ensures 1 in mixed.flags && mixed.flags[1] == 1 && 1 in mixed.procs && mixed.procs[1].phase == Swept(2, true)
  {
    hide Reaches;
    var s2 := To(both.(flags := Flagged(both.flags, 0, 2)), 1, Swept(2, true));
    ReachSecondSwept(c, both, s2);
    var sw := both.procs[0].phase.sweep;
    mixed := To(s2.(flags := Flagged(s2.flags, 0, 1)), 0, Sweeping(1, sw.(progress := Check(1, 0))));
    ReachAct(c, s2, 0, RunBatch(true, true), mixed);
  }

  lemma PublishMixed(c: Config, mixed: State)
    requires Reaches(c, mixed) && mixed.live == 2 && mixed.request == None
    requires mixed.lease.Some? && mixed.lease.value.owner == 1
    requires 1 in mixed.flags && mixed.flags[1] == 1 && 1 in mixed.procs && mixed.procs[1].phase == Swept(2, true)
    ensures !AlwaysConverged(c)
  {
    hide Reaches;
    var s4 := To(mixed, 1, Publishing(2));
    ReachAct(c, mixed, 1, CheckSwept(true, true), s4);
    var s5 := To(Refresh(s4, 1).(marker := Some(2)), 1, PublishSent(2, true));
    hide Do;
    PublishDoes(c, s4, 1, 2);
    assert Step(c, s4, Act(1, PublishRun)) == Some(s5);
    assert s5.flags[1] == 1;
    assert !AllFlagged(s5.flags, 2);
  }

  lemma PublishDoes(c: Config, s: State, p: Pid, ver: Version)
    requires p in s.procs && s.procs[p].phase == Publishing(ver) && Owns(s, p)
    ensures Do(c, s, p, PublishRun) == Some(To(Refresh(s, p).(marker := Some(ver)), p, PublishSent(ver, true)))
  {}

  /** A first sweep that failed, its batch still to take effect, and a second one under way. */
  lemma ReachBehind(c: Config) returns (both: State)
    requires c.late
    ensures Reaches(c, both)
    ensures both.live == 2 && both.request == None && both.flags == map[1 := 0] && LateBatch(0, 1) in both.late
    ensures both.lease.Some? && both.lease.value.owner == 1 && 1 in both.procs
    ensures both.procs[1].phase.Sweeping? && both.procs[1].phase.ver == 2
    ensures both.procs[1].phase.sweep.progress == Batch(1, 0) && both.procs[1].phase.sweep.renewal == Idle
  {
    hide Reaches;
    ReachLonely(c, 0, 0);
    var s := Lonely(0, 0, 0, 0, Idle, 0);
    var s1 := To(AddLate(s, 1, 0), 0, Swept(1, false));
    ReachAct(c, s, 0, RunBatch(false, false), s1);
    var s2 := s1.(now := c.stale * SEC + 1);
    ReachStep(c, s1, Advance(c.stale * SEC + 1), s2);
    both := s2.(live := 2, lease := Some(Lease(1, s2.now)),
      procs := s2.procs[1 := Proc(1, Sweeping(2, Sweep(s2.now, s2.now, Idle, Batch(1, 0))), 0)]);
    ReachOverlap(c, s2, both);
  }

  /** A batch that takes effect after its process has given it up makes a later marker untrue, whatever
      the constants are. */
  lemma UnsafeLate(c: Config)
    requires c.late
    ensures !AlwaysConverged(c)
  {
    hide Reaches, AlwaysConverged;
    var both := ReachBehind(c);
    var s := To(both.(flags := Flagged(both.flags, 0, 2)), 1, Swept(2, true));
    ReachSecondSwept(c, both, s);
    var b := LateBatch(0, 1);
    var mixed := s.(flags := Flagged(s.flags, 0, 1), late := s.late - {b});
    ReachStep(c, s, Late(b), mixed);
    PublishMixed(c, mixed);
  }

  /** The side condition is exact, for any latency and any constants: sweeps exclude each other if and
      only if the constants fit and the lease is never deleted unfenced; and published markers are truthful
      if and only if, besides, no batch takes effect late. */
  lemma ExclusionIff(c: Config)
    requires c.aborts || c.renew >= 1
    ensures AlwaysExclusive(c) <==> Fits(c)
    ensures AlwaysConverged(c) <==> Fits(c) && !c.late
  {
    hide AlwaysExclusive, AlwaysConverged;
    if c.late { UnsafeLate(c); }
    if Fits(c) { SafeWhenFits(c); }
    else if c.aborts { UnsafeAbort(c); }
    else { UnsafeTiming(c); }
  }

  /** The shipped constants do not fit: 120 + 60 + 1 seconds against a stale window of 180. */
  lemma ShippedConstantsOverlap(latency: nat, aborts: bool, late: bool)
    ensures var c := Shipped(latency, aborts, late); !AlwaysExclusive(c) && !AlwaysConverged(c)
  {
    hide AlwaysExclusive, AlwaysConverged;
    ExclusionIff(Shipped(latency, aborts, late));
  }

  // ---------------------------------------------------------------- fenced publication, aborts included

  /** The attempt has won its claim and not begun to let go of it. */
  predicate AfterClaim(phase: Phase) {
    match phase
    case ClaimSent(_, won) => won
    case Claimed(_) => true
    case Rechecked(_) => true
    case Confirming(_) => true
    case ConfirmSent(_, _) => true
    case Confirmed(_, _) => true
    case Timer(_, _, _) => true
    case Sweeping(_, _) => true
    case Swept(_, _) => true
    case Publishing(_) => true
    case PublishSent(_, _) => true
    case _ => false
  }

  /** The sweep is past row `id`. */
  predicate Past(phase: Phase, id: int) {
    match phase
    case Sweeping(_, sw) => (
      match sw.progress
      case NeedMax => false
      case Batch(_, fromId) => id <= fromId
      case Check(_, fromId) => id <= fromId + BATCH_SIZE)
    case Swept(_, ok) => ok
    case Publishing(_) => true
    case PublishSent(_, _) => true
    case _ => false
  }

  /** The action is a successful batch over row `id`. */
  predicate Covers(phase: Phase, a: Action, id: int) {
    && a.RunBatch? && a.ok
    && phase.Sweeping? && phase.sweep.progress.Batch?
    && phase.sweep.progress.fromId < id <= phase.sweep.progress.fromId + BATCH_SIZE
  }

  /** A sweep under way knows the largest id. */
  ghost predicate KnowsMax(flags: map<int, Version>, phase: Phase) {
    && phase.Sweeping? && !phase.sweep.progress.NeedMax?
    ==> IsMax(flags, Some(phase.sweep.progress.maxId))
  }

  /** The attempt, its version and its claim. */
  predicate TracedClaim(proc: Proc, a: Action, proc': Proc) {
    AfterClaim(proc'.phase) && a != ClaimRun ==>
      AfterClaim(proc.phase) && proc.attempt == proc'.attempt && proc.phase.ver == proc'.phase.ver
  }

  /** The rows swept. */
  ghost predicate TracedRows(s: State, phase: Phase, a: Action, s': State, phase': Phase) {
    KnowsMax(s.flags, phase) ==>
      && KnowsMax(s'.flags, phase')
      && forall id :: id in s.flags && 0 < id && Past(phase', id) ==> Past(phase, id) || Covers(phase, a, id)
  }

  /** The lease and the marker. */
  predicate TracedLease(c: Config, s: State, p: Pid, a: Action, s': State) {
    && (s'.lease.Some? && s'.lease != s.lease ==> Owns(s', p) && (Owns(s, p) || (a == ClaimRun && Stale(c, s))))
    && (s'.lease.None? && s.lease.Some? ==> a == ReleaseRun && Owns(s, p))
    && (s'.marker != s.marker ==> a == PublishRun && Owns(s, p))
  }

  /** What an action of `p` does to its own record and to the shared rows, seen backwards. */
  ghost predicate Traced(c: Config, s: State, p: Pid, a: Action, s': State) {
    && p in s.procs && p in s'.procs && s'.procs == s.procs[p := s'.procs[p]]
    && s'.flags.Keys == s.flags.Keys
    && TracedClaim(s.procs[p], a, s'.procs[p])
    && TracedRows(s, s.procs[p].phase, a, s', s'.procs[p].phase)
    && TracedLease(c, s, p, a, s')
  }

  lemma FlaggedKeys(flags: map<int, Version>, fromId: int, ver: Version)
    ensures Flagged(flags, fromId, ver).Keys == flags.Keys
  {
    assert forall k :: k in flags <==> k in Flagged(flags, fromId, ver);
  }

  lemma AcquireTraced(c: Config, s: State, p: Pid, a: Action, s': State)
    requires p in s.procs && Acquire(c, s, p, a) == Some(s')
    ensures Traced(c, s, p, a, s')
  {}

  lemma DoSweepTraced(c: Config, s: State, p: Pid, ver: Version, sw: Sweep, a: Action, s': State)
    requires p in s.procs && s.procs[p].phase == Sweeping(ver, sw) && DoSweep(c, s, p, ver, sw, a) == Some(s')
    ensures Traced(c, s, p, a, s')
  {
    hide TracedRows, Superseded, Elapsed;
    if sw.progress.Batch? {
      FlaggedKeys(s.flags, sw.progress.fromId, ver);
    }
    DoSweepRows(c, s, p, ver, sw, a, s');
  }

  lemma DoSweepRows(c: Config, s: State, p: Pid, ver: Version, sw: Sweep, a: Action, s': State)
    requires p in s.procs && s.procs[p].phase == Sweeping(ver, sw) && DoSweep(c, s, p, ver, sw, a) == Some(s')
    ensures p in s'.procs && TracedRows(s, s.procs[p].phase, a, s', s'.procs[p].phase)
  {
    hide Superseded, Flagged;
    if sw.progress.Batch? {
      FlaggedKeys(s.flags, sw.progress.fromId, ver);
    }
  }

  lemma RenewTraced(c: Config, s: State, p: Pid, ver: Version, sw: Sweep, a: Action, s': State)
    requires p in s.procs && s.procs[p].phase == Sweeping(ver, sw) && Renew(c, s, p, ver, sw, a) == Some(s')
    ensures Traced(c, s, p, a, s')
  {
    RenewRows(c, s, p, ver, sw, a, s');
    RenewClaim(c, s, p, ver, sw, a, s');
    hide TracedRows, TracedClaim, Elapsed, Budget, Past, KnowsMax;
  }

  lemma RenewClaim(c: Config, s: State, p: Pid, ver: Version, sw: Sweep, a: Action, s': State)
    requires p in s.procs && s.procs[p].phase == Sweeping(ver, sw) && Renew(c, s, p, ver, sw, a) == Some(s')
    ensures p in s'.procs && TracedClaim(s.procs[p], a, s'.procs[p])
  {
    hide Elapsed, Budget, Owns;
  }

  lemma RenewRows(c: Config, s: State, p: Pid, ver: Version, sw: Sweep, a: Action, s': State)
    requires p in s.procs && s.procs[p].phase == Sweeping(ver, sw) && Renew(c, s, p, ver, sw, a) == Some(s')
    ensures p in s'.procs && TracedRows(s, s.procs[p].phase, a, s', s'.procs[p].phase)
  {
    hide IsMax, Elapsed, Budget, Owns;
  }

  lemma ConcludeTraced(c: Config, s: State, p: Pid, a: Action, s': State)
    requires p in s.procs && Conclude(c, s, p, a) == Some(s')
    ensures Traced(c, s, p, a, s')
  {}

  lemma ActTraced(c: Config, s: State, p: Pid, a: Action, s': State)
    requires Step(c, s, Act(p, a)) == Some(s')
    ensures Traced(c, s, p, a, s')
  {
    hide Traced, Acquire, DoSweep, Renew, Conclude;
    match s.procs[p].phase
    case Sweeping(ver, sw) =>
      if a.ReadMax? || a.RunBatch? || a.CheckBatch? { DoSweepTraced(c, s, p, ver, sw, a, s'); }
      else { RenewTraced(c, s, p, ver, sw, a, s'); }
    case Swept(_, _) => ConcludeTraced(c, s, p, a, s');
    case Publishing(_) => ConcludeTraced(c, s, p, a, s');
    case PublishSent(_, _) => ConcludeTraced(c, s, p, a, s');
    case Releasing(_) => ConcludeTraced(c, s, p, a, s');
    case _ => AcquireTraced(c, s, p, a, s');
  }

  /** Other steps leave the attempts and the marker alone, and the ids. */
  lemma OtherStep(c: Config, s: State, l: Label, s': State)
    requires Step(c, s, l) == Some(s') && !l.Act?
    ensures s'.flags.Keys == s.flags.Keys && s'.marker == s.marker
    ensures forall p :: p in s'.procs && p !in s.procs ==> s'.procs[p].phase == Begin
    ensures s.procs.Keys <= s'.procs.Keys
    ensures forall p :: p in s.procs ==> s'.procs[p].phase == s.procs[p].phase
    ensures forall p :: p in s.procs ==> s'.procs[p].attempt == s.procs[p].attempt
    ensures l != Abort ==> s.lease.None? == s'.lease.None?
    ensures s.lease.Some? && s'.lease.Some? ==> s.lease.value.owner == s'.lease.value.owner
    ensures s'.lease.Some? ==> s.lease.Some?
  {
    if l.Late? { FlaggedKeys(s.flags, l.batch.fromId, l.batch.ver); }
  }

  /** Nobody comes to own the lease except by a claim of its own: no renewal, publication, stray
      or step of another invocation gives it back. */
  lemma OwnershipIsClaimed(c: Config, s: State, l: Label, s': State, p: Pid)
    requires Step(c, s, l) == Some(s') && Owns(s', p)
    ensures Owns(s, p) || l == Act(p, ClaimRun)
  {
    hide Step, Past, Covers, KnowsMax, AfterClaim;
    if l.Act? { ActTraced(c, s, l.pid, l.action, s'); } else { OtherStep(c, s, l, s'); }
  }

  /** Ownership is lost only by releasing it, by an unfenced abort, or to a claim that found it
      stale: a preempted holder can neither refresh nor delete its successor's lease. */
  lemma OwnershipIsLost(c: Config, s: State, l: Label, s': State, p: Pid)
    requires Step(c, s, l) == Some(s') && Owns(s, p) && !Owns(s', p)
    ensures l == Abort || l == Act(p, ReleaseRun) || (l.Act? && l.action == ClaimRun && Stale(c, s))
  {
    hide Step, Past, Covers, KnowsMax, AfterClaim;
    if l.Act? { ActTraced(c, s, l.pid, l.action, s'); } else { OtherStep(c, s, l, s'); }
  }

  /** The marker changes only by a publication of the lease's owner. */
  lemma OnlyPublicationWrites(c: Config, s: State, l: Label, s': State)
    requires Step(c, s, l) == Some(s') && s'.marker != s.marker
    ensures l.Act? && l.action == PublishRun && Owns(s, l.pid)
  {
    hide Step, Past, Covers, KnowsMax, AfterClaim;
    if l.Act? { ActTraced(c, s, l.pid, l.action, s'); } else { OtherStep(c, s, l, s'); }
  }

  /** The attempt, its version and its claim are the same one step earlier. */
  lemma AfterClaimBefore(c: Config, s: State, l: Label, s': State, p: Pid)
    requires Step(c, s, l) == Some(s') && l != Act(p, ClaimRun)
    requires p in s'.procs && AfterClaim(s'.procs[p].phase)
    ensures p in s.procs && AfterClaim(s.procs[p].phase)
    ensures s.procs[p].attempt == s'.procs[p].attempt && s.procs[p].phase.ver == s'.procs[p].phase.ver
  {
    hide Step, Past, Covers, KnowsMax;
    if l.Act? { ActTraced(c, s, l.pid, l.action, s'); } else { OtherStep(c, s, l, s'); }
  }

  /** An attempt that is past its claim and owns the lease has owned it ever since the claim. */
  lemma {:induction false} OwnedSinceClaim(c: Config, states: seq<State>, labels: seq<Label>, k: nat, p: Pid)
    returns (i: nat)
    requires Run(c, states, labels) && k < |states|
    requires p in states[k].procs && AfterClaim(states[k].procs[p].phase) && Owns(states[k], p)
    ensures i < k && labels[i] == Act(p, ClaimRun) && p in states[i].procs
    ensures states[i].procs[p].attempt == states[k].procs[p].attempt
    ensures states[i].procs[p].phase == WantClaim(states[k].procs[p].phase.ver)
    ensures forall j :: i < j <= k ==> Owns(states[j], p)
  {
    assert k > 0;
    assert Step(c, states[k - 1], labels[k - 1]) == Some(states[k]);
    if labels[k - 1] == Act(p, ClaimRun) {
      return k - 1;
    }
    AfterClaimBefore(c, states[k - 1], labels[k - 1], states[k], p);
    OwnershipIsClaimed(c, states[k - 1], labels[k - 1], states[k], p);
    i := OwnedSinceClaim(c, states, labels, k - 1, p);
  }

  /** Step `j` is a successful batch of `p`, in that attempt and for that version, over row `id`. */
  ghost predicate BatchAt(states: seq<State>, labels: seq<Label>, j: nat, p: Pid, attempt: nat, ver: Version, id: int)
    requires j < |labels| < |states|
  {
    && labels[j].Act? && labels[j].pid == p && p in states[j].procs
    && states[j].procs[p].attempt == attempt
    && Covers(states[j].procs[p].phase, labels[j].action, id)
    && states[j].procs[p].phase.ver == ver
  }

  lemma KnowsMaxStep(c: Config, s: State, l: Label, s': State, p: Pid)
    requires Step(c, s, l) == Some(s') && (p in s.procs ==> KnowsMax(s.flags, s.procs[p].phase))
    ensures s'.flags.Keys == s.flags.Keys
    ensures p in s'.procs ==> KnowsMax(s'.flags, s'.procs[p].phase)
  {
    hide Step, Past, Covers, AfterClaim;
    if l.Act? { ActTraced(c, s, l.pid, l.action, s'); } else { OtherStep(c, s, l, s'); }
  }

  lemma {:induction false} KnowsMaxAlong(c: Config, states: seq<State>, labels: seq<Label>, k: nat, p: Pid)
    requires Run(c, states, labels) && k < |states|
    ensures states[k].flags.Keys == states[0].flags.Keys
    ensures p in states[k].procs ==> KnowsMax(states[k].flags, states[k].procs[p].phase)
  {
    hide Step, KnowsMax;
    if k > 0 {
      KnowsMaxAlong(c, states, labels, k - 1, p);
      assert Step(c, states[k - 1], labels[k - 1]) == Some(states[k]);
      KnowsMaxStep(c, states[k - 1], labels[k - 1], states[k], p);
    }
  }

  /** One step earlier the sweep was past the row already, or is passing it by a batch now. */
  lemma PastBefore(c: Config, s: State, l: Label, s': State, p: Pid, id: int)
    requires Step(c, s, l) == Some(s') && id in s.flags && 0 < id
    requires p in s.procs ==> KnowsMax(s.flags, s.procs[p].phase)
    requires p in s'.procs && Past(s'.procs[p].phase, id) && AfterClaim(s'.procs[p].phase) && l != Act(p, ClaimRun)
    ensures p in s.procs && AfterClaim(s.procs[p].phase)
    ensures s.procs[p].attempt == s'.procs[p].attempt && s.procs[p].phase.ver == s'.procs[p].phase.ver
    ensures Past(s.procs[p].phase, id) || (l.Act? && l.pid == p && Covers(s.procs[p].phase, l.action, id))
  {
    hide Step, Covers, KnowsMax;
    AfterClaimBefore(c, s, l, s', p);
    if l.Act? { ActTraced(c, s, l.pid, l.action, s'); } else { OtherStep(c, s, l, s'); }
  }

  lemma {:induction false} RowWasSwept(c: Config, states: seq<State>, labels: seq<Label>, k: nat, p: Pid, id: int)
    returns (j: nat)
    requires Run(c, states, labels) && k < |states| && id in states[k].flags && 0 < id
    requires p in states[k].procs && Past(states[k].procs[p].phase, id)
    ensures AfterClaim(states[k].procs[p].phase)
    ensures j < k && BatchAt(states, labels, j, p, states[k].procs[p].attempt, states[k].procs[p].phase.ver, id)
    ensures forall m :: j <= m < k ==> labels[m] != Act(p, ClaimRun)
  {
    hide Step, KnowsMax, Covers;
    assert k > 0;
    assert Step(c, states[k - 1], labels[k - 1]) == Some(states[k]);
    KnowsMaxAlong(c, states, labels, k - 1, p);
    KnowsMaxAlong(c, states, labels, k, p);
    ClaimIsNoSweep(c, states[k - 1], labels[k - 1], states[k], p, id);
    PastBefore(c, states[k - 1], labels[k - 1], states[k], p, id);
    if Past(states[k - 1].procs[p].phase, id) {
      j := RowWasSwept(c, states, labels, k - 1, p, id);
    } else {
      j := k - 1;
    }
  }

  lemma ClaimIsNoSweep(c: Config, s: State, l: Label, s': State, p: Pid, id: int)
    requires Step(c, s, l) == Some(s') && p in s'.procs && Past(s'.procs[p].phase, id)
    ensures l != Act(p, ClaimRun) && AfterClaim(s'.procs[p].phase)
  {
    hide Acquire;
    if l == Act(p, ClaimRun) { ClaimOutcome(c, s, p, s'); }
  }

  lemma ClaimOutcome(c: Config, s: State, p: Pid, s': State)
    requires Step(c, s, Act(p, ClaimRun)) == Some(s')
    ensures s'.procs[p].phase.ClaimSent?
  {}

  /** Fenced publication, over all runs, aborts and takeovers included. When a publication writes
      the marker at step `k`, its attempt claimed the lease for that version at some step `i`, the
      row has carried its token at every moment since, and after that claim the attempt's sweep ran a
      successful batch for that version over every media row. */
  lemma FencedPublication(c: Config, states: seq<State>, labels: seq<Label>, k: nat, p: Pid) returns (i: nat)
    requires Run(c, states, labels) && k < |labels|
    requires labels[k] == Act(p, PublishRun) && Owns(states[k], p)
    ensures p in states[k].procs && states[k].procs[p].phase.Publishing?
    ensures states[k + 1].marker == Some(states[k].procs[p].phase.ver)
    ensures i < k && labels[i] == Act(p, ClaimRun) && p in states[i].procs
    ensures states[i].procs[p].attempt == states[k].procs[p].attempt
    ensures states[i].procs[p].phase == WantClaim(states[k].procs[p].phase.ver)
    ensures forall j :: i < j <= k ==> Owns(states[j], p)
    ensures var proc := states[k].procs[p];
      forall id :: id in states[k].flags && 0 < id ==>
        exists j: nat :: i < j < k && BatchAt(states, labels, j, p, proc.attempt, proc.phase.ver, id)
  {
    assert Step(c, states[k], labels[k]) == Some(states[k + 1]);
    i := OwnedSinceClaim(c, states, labels, k, p);
    var proc := states[k].procs[p];
    forall id | id in states[k].flags && 0 < id
      ensures exists j: nat :: i < j < k && BatchAt(states, labels, j, p, proc.attempt, proc.phase.ver, id)
    {
      var j := RowWasSwept(c, states, labels, k, p, id);
    }
  }
}
