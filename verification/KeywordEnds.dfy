/** How an invocation of the keyword recompute ends, and what it leaves behind (backend/src/state.rs:806-1078), over
    every run of KeywordLease. */
module KeywordEnds {
  import opened KeywordLease
  import opened KeywordGuards
  import opened Wrappers

  // ---------------------------------------------------------------- with its attempts left

  /** On its way out with nothing left to do, or there, with attempts left. */
  predicate Leaving(c: Config, proc: Proc) {
    proc.phase == Releasing(false) || (proc.phase == Finished && proc.attempt < c.attempts)
  }

  /** The marker is found at the version that was loaded. */
  predicate Finds(s: State, p: Pid, a: Action) {
    && (a == CheckMarker(true) || a == Recheck(true))
    && p in s.procs && Rank(s.procs[p].phase) >= 1 && s.marker == Some(s.procs[p].phase.ver)
  }

  lemma AcquireLeaves(c: Config, s: State, p: Pid, a: Action, s': State)
    requires p in s.procs && Acquire(c, s, p, a) == Some(s') && p in s'.procs && Leaving(c, s'.procs[p])
    ensures s'.procs[p].attempt == s.procs[p].attempt && (Leaving(c, s.procs[p]) || Finds(s, p, a))
  {
    hide Stale;
  }

  lemma ConcludeLeaves(c: Config, s: State, p: Pid, a: Action, s': State)
    requires p in s.procs && Conclude(c, s, p, a) == Some(s') && p in s'.procs && Leaving(c, s'.procs[p])
    ensures s'.procs[p].attempt == s.procs[p].attempt && Leaving(c, s.procs[p])
  {}

  lemma ActLeaves(c: Config, s: State, p: Pid, a: Action, s': State)
    requires Step(c, s, Act(p, a)) == Some(s') && p in s'.procs && Leaving(c, s'.procs[p])
    ensures p in s.procs && s'.procs[p].attempt == s.procs[p].attempt && (Leaving(c, s.procs[p]) || Finds(s, p, a))
  {
    hide Acquire, Conclude, Leaving;
    if s.procs[p].phase.Sweeping? {
      SweepingStays(c, s, p, a, s');
    } else if s.procs[p].phase.Swept? || s.procs[p].phase.Publishing? || s.procs[p].phase.PublishSent?
              || s.procs[p].phase.Releasing? {
      hide DoSweep, Renew;
      ConcludeLeaves(c, s, p, a, s');
    } else {
      hide DoSweep, Renew;
      AcquireLeaves(c, s, p, a, s');
    }
  }

  /** A sweep goes on or is over, and no more in one step. */
  lemma SweepingStays(c: Config, s: State, p: Pid, a: Action, s': State)
    requires Step(c, s, Act(p, a)) == Some(s') && p in s.procs && s.procs[p].phase.Sweeping? && p in s'.procs
    ensures !Leaving(c, s'.procs[p]) && (s'.procs[p].phase.Sweeping? || s'.procs[p].phase.Swept?)
    ensures s'.procs[p].attempt == s.procs[p].attempt && SameOwner(s, s')
  {
    hide DoSweep, Renew, Leaving, SameOwner;
    if a.ReadMax? || a.RunBatch? || a.CheckBatch? { BatchStays(c, s, p, a, s'); } else { RenewalStays(c, s, p, a, s'); }
    InSweep(c, s'.procs[p]);
  }

  predicate SameOwner(s: State, s': State) {
    s'.lease.Some? == s.lease.Some? && (s.lease.Some? ==> s'.lease.value.owner == s.lease.value.owner)
  }

  lemma InSweep(c: Config, proc: Proc)
    ensures proc.phase.Sweeping? || proc.phase.Swept? ==> !Leaving(c, proc)
  {}

  lemma BatchStays(c: Config, s: State, p: Pid, a: Action, s': State)
    requires p in s.procs && s.procs[p].phase.Sweeping? && p in s'.procs
    requires DoSweep(c, s, p, s.procs[p].phase.ver, s.procs[p].phase.sweep, a) == Some(s')
    ensures s'.procs[p].phase.Sweeping? || s'.procs[p].phase.Swept?
    ensures s'.procs[p].attempt == s.procs[p].attempt && SameOwner(s, s')
  {
    hide Flagged, IsMax, Superseded;
  }

  lemma RenewalStays(c: Config, s: State, p: Pid, a: Action, s': State)
    requires p in s.procs && s.procs[p].phase.Sweeping? && p in s'.procs
    requires Renew(c, s, p, s.procs[p].phase.ver, s.procs[p].phase.sweep, a) == Some(s')
    ensures s'.procs[p].phase.Sweeping? || s'.procs[p].phase.Swept?
    ensures s'.procs[p].attempt == s.procs[p].attempt && SameOwner(s, s')
  {
    hide Elapsed, Budget;
  }

  /** In one attempt the version `ver` was live when it was loaded, and named by the marker when that was read
      later on. */
  ghost predicate UpToDate(c: Config, states: seq<State>, labels: seq<Label>, k: nat, p: Pid, attempt: nat) {
    exists i: nat, j: nat, ver: Version ::
      i < j < k && Reached(c, states, labels, i, p, attempt, ver, 1) && FoundAt(states, labels, j, p, attempt, ver)
  }

  ghost predicate FoundAt(states: seq<State>, labels: seq<Label>, j: nat, p: Pid, attempt: nat, ver: Version) {
    && j < |labels| && j < |states| && (labels[j] == Act(p, CheckMarker(true)) || labels[j] == Act(p, Recheck(true)))
    && p in states[j].procs && states[j].procs[p].attempt == attempt && states[j].marker == Some(ver)
  }

  /** An invocation ends with attempts left only when it has read the marker to name the version that it had read to be
      the live one: a sweep that failed, was superseded or lost its lease never ends it, nor does its own
      publication. */
  lemma {:induction false} EndsUpToDate(c: Config, states: seq<State>, labels: seq<Label>, k: nat, p: Pid)
    requires Run(c, states, labels) && k < |states| && p in states[k].procs && Leaving(c, states[k].procs[p])
    ensures UpToDate(c, states, labels, k, p, states[k].procs[p].attempt)
    decreases k
  {
    hide Step, Reached, Leaving, FoundAt;
    assert k > 0;
    var (s, l, s') := (states[k - 1], labels[k - 1], states[k]);
    assert Step(c, s, l) == Some(s');
    if l.Act? && l.pid == p {
      ActIsOfOne(c, s, l, s');
      ActLeaves(c, s, p, l.action, s');
      if Leaving(c, s.procs[p]) {
        EndsUpToDate(c, states, labels, k - 1, p);
      } else {
        FoundNow(c, states, labels, k - 1, p);
      }
    } else {
      OthersLeave(c, s, l, s', p);
      StillLeaving(c, s, s', p);
      EndsUpToDate(c, states, labels, k - 1, p);
    }
  }

  lemma FoundNow(c: Config, states: seq<State>, labels: seq<Label>, k: nat, p: Pid)
    requires Run(c, states, labels) && k < |labels| && labels[k].Act? && labels[k].pid == p
    requires Finds(states[k], p, labels[k].action)
    ensures UpToDate(c, states, labels, k + 1, p, states[k].procs[p].attempt)
  {
    hide Step, Reached;
    var i := AttemptGuarded(c, states, labels, k, p, 1);
    assert FoundAt(states, labels, k, p, states[k].procs[p].attempt, states[k].procs[p].phase.ver);
  }

  lemma StillLeaving(c: Config, s: State, s': State, p: Pid)
    requires p in s'.procs && Leaving(c, s'.procs[p])
    requires p in s.procs ==> s'.procs[p].phase == s.procs[p].phase && s'.procs[p].attempt == s.procs[p].attempt
    requires p !in s.procs ==> s'.procs[p].phase == Begin
    ensures p in s.procs && Leaving(c, s.procs[p])
  {}

  // ---------------------------------------------------------------- without the lease

  /** The replies to claims and renewals arrive, and the release takes effect. */
  predicate Delivered(a: Action) {
    match a
    case ClaimReply(ok) => ok
    case ConfirmError => false
    case ConfirmReply(ok) => ok
    case ReleaseError => false
    case _ => true
  }

  /** Before a claim that is won, and after the release. */
  predicate Away(phase: Phase) {
    phase.Begin? || phase.Loaded? || phase.WantClaim? || phase == Finished
    || (phase.ClaimSent? && !phase.won) || (phase.ConfirmSent? && !phase.effect.touched)
  }

  lemma AcquireAway(c: Config, s: State, p: Pid, a: Action, s': State)
    requires p in s.procs && Acquire(c, s, p, a) == Some(s') && Delivered(a) && p in s'.procs
    requires Away(s.procs[p].phase) ==> !Owns(s, p)
    ensures Away(s'.procs[p].phase) ==> !Owns(s', p)
  {}

  lemma ConcludeAway(c: Config, s: State, p: Pid, a: Action, s': State)
    requires p in s.procs && Conclude(c, s, p, a) == Some(s') && Delivered(a) && p in s'.procs
    ensures Away(s'.procs[p].phase) ==> !Owns(s', p)
  {
    hide Superseded;
  }

  lemma ActAway(c: Config, s: State, p: Pid, a: Action, s': State)
    requires Step(c, s, Act(p, a)) == Some(s') && Delivered(a) && p in s.procs && p in s'.procs
    requires Away(s.procs[p].phase) ==> !Owns(s, p)
    ensures Away(s'.procs[p].phase) ==> !Owns(s', p)
  {
    hide Acquire, Conclude;
    if s.procs[p].phase.Sweeping? {
      SweepingStays(c, s, p, a, s');
    } else if s.procs[p].phase.Swept? || s.procs[p].phase.Publishing? || s.procs[p].phase.PublishSent?
              || s.procs[p].phase.Releasing? {
      hide DoSweep, Renew;
      ConcludeAway(c, s, p, a, s');
    } else {
      hide DoSweep, Renew;
      AcquireAway(c, s, p, a, s');
    }
  }

  /** An invocation whose claims, renewals and releases get through leaves no lease behind: between attempts, and at
      its end, it does not own it. */
  lemma {:induction false} LeavesNoLease(c: Config, states: seq<State>, labels: seq<Label>, k: nat, p: Pid)
    requires Run(c, states, labels) && k < |states| && !Owns(states[0], p)
    requires forall i :: 0 <= i < k && labels[i].Act? && labels[i].pid == p ==> Delivered(labels[i].action)
    requires p in states[k].procs ==> Away(states[k].procs[p].phase)
    ensures !Owns(states[k], p)
  {
    AwayFrom(c, states, labels, k, p);
  }

  lemma {:induction false} AwayFrom(c: Config, states: seq<State>, labels: seq<Label>, k: nat, p: Pid)
    requires Run(c, states, labels) && k < |states| && !Owns(states[0], p)
    requires forall i :: 0 <= i < k && labels[i].Act? && labels[i].pid == p ==> Delivered(labels[i].action)
    ensures (p in states[k].procs ==> Away(states[k].procs[p].phase)) ==> !Owns(states[k], p)
    decreases k
  {
    hide Step, Delivered, Away, Owns;
    if k > 0 {
      AwayFrom(c, states, labels, k - 1, p);
      var (s, l, s') := (states[k - 1], labels[k - 1], states[k]);
      assert Step(c, s, l) == Some(s');
      if l.Act? && l.pid == p {
        ActIsOfOne(c, s, l, s');
        ActClimbs(c, s, p, l.action, s');
        ActAway(c, s, p, l.action, s');
      } else {
        if Owns(s', p) { OwnershipIsClaimed(c, s, l, s', p); }
        if p in s'.procs { OthersLeave(c, s, l, s', p); }
        else { NotStarted(c, s, l, s', p); }
      }
    }
  }

  lemma NotStarted(c: Config, s: State, l: Label, s': State, p: Pid)
    requires Step(c, s, l) == Some(s') && p !in s'.procs
    ensures p !in s.procs
  {
    hide Step;
    if p in s.procs { StaysThere(c, s, l, s', p); }
  }

  // ---------------------------------------------------------------- single steps

  /** Before the sweep an attempt goes on exactly unless the marker is read to name its version, or another version to
      be requested: reads that fail do not stop it. */
  lemma UnreadGoesOn(c: Config, s: State, p: Pid, a: Action, s': State)
    requires Step(c, s, Act(p, a)) == Some(s') && (a.CheckMarker? || a.Recheck? || a.CheckRequest?)
    ensures p in s.procs && p in s'.procs && Rank(s.procs[p].phase) > 0
    ensures Rank(s'.procs[p].phase) == Rank(s.procs[p].phase) + 1
      <==> (a.ok ==> if a.CheckRequest? then s.request == None || s.request == Some(s.procs[p].phase.ver)
                     else s.marker != Some(s.procs[p].phase.ver))
  {
    hide DoSweep, Stale, AfterAttempt, Budget;
  }

  /** Renewals that fail or time out are put up with until the last confirmed one is as old as the abort window; a
      confirmed one counts from its reply on. Whatever else the sweep is about goes on. */
  lemma RenewalDecides(c: Config, s: State, p: Pid, a: Action, s': State)
    requires Step(c, s, Act(p, a)) == Some(s') && (a.RenewReply? || a.RenewError? || a.RenewTimeout?)
    ensures p in s.procs && s.procs[p].phase.Sweeping? && s.procs[p].phase.sweep.renewal.InFlight? && p in s'.procs
    ensures a.RenewReply? ==> s.procs[p].phase.sweep.renewal.effect.Some?
    ensures var (phase, phase') := (s.procs[p].phase, s'.procs[p].phase);
      if (if a.RenewReply? then phase.sweep.renewal.effect.value.touched && c.abort > 0
          else s.now < phase.sweep.lastConfirmed + c.abort * SEC)
      then
        && phase'.Sweeping? && phase'.ver == phase.ver && phase'.sweep.renewal == Idle
        && phase'.sweep.lastConfirmed == (if a.RenewReply? then s.now else phase.sweep.lastConfirmed)
        && phase'.sweep.progress == phase.sweep.progress && phase'.sweep.nextTick == phase.sweep.nextTick
      else phase' == Swept(phase.ver, false)
  {
    hide Budget;
    if !a.RenewReply? { WholeSeconds(s.now, s.procs[p].phase.sweep.lastConfirmed, c.abort); }
    else { WholeSeconds(s.now, s.now, c.abort); }
  }

  lemma WholeSeconds(now: int, since: int, n: nat)
    ensures Elapsed(now, since) >= n <==> now >= since + n * SEC
  {}

  /** A batch that takes effect flags exactly the 500 ids behind its start, for the version of its sweep. */
  lemma BatchFlags(c: Config, s: State, p: Pid, ok: bool, applied: bool, s': State)
    requires Step(c, s, Act(p, RunBatch(ok, applied))) == Some(s')
    ensures p in s.procs && s.procs[p].phase.Sweeping? && s.procs[p].phase.sweep.progress.Batch?
    ensures s'.flags.Keys == s.flags.Keys
    ensures var (ver, start) := (s.procs[p].phase.ver, s.procs[p].phase.sweep.progress.fromId);
      forall k :: k in s.flags ==>
        s'.flags[k] == if (ok || applied) && start < k <= start + BATCH_SIZE then ver else s.flags[k]
  {
    FlaggedKeys(s.flags, s.procs[p].phase.sweep.progress.fromId, s.procs[p].phase.ver);
  }

  /** And no other step changes a flag, save a batch that takes effect late. */
  lemma OthersKeepFlags(c: Config, s: State, l: Label, s': State)
    requires Step(c, s, l) == Some(s') && !l.Late? && !(l.Act? && l.action.RunBatch?)
    ensures s'.flags == s.flags
  {
    if l.Act? {
      hide Acquire, DoSweep, Renew, Conclude;
      var (p, a) := (l.pid, l.action);
      if s.procs[p].phase.Sweeping? {
        if a.ReadMax? || a.CheckBatch? { SweepKeepsFlags(c, s, p, a, s'); } else { RenewKeepsFlags(c, s, p, a, s'); }
      } else if s.procs[p].phase.Swept? || s.procs[p].phase.Publishing? || s.procs[p].phase.PublishSent?
                || s.procs[p].phase.Releasing? {
        ConcludeKeepsFlags(c, s, p, a, s');
      } else {
        AcquireKeepsFlags(c, s, p, a, s');
      }
    }
  }

  lemma AcquireKeepsFlags(c: Config, s: State, p: Pid, a: Action, s': State)
    requires p in s.procs && Acquire(c, s, p, a) == Some(s')
    ensures s'.flags == s.flags
  {
    hide Stale;
  }

  lemma SweepKeepsFlags(c: Config, s: State, p: Pid, a: Action, s': State)
    requires p in s.procs && s.procs[p].phase.Sweeping? && !a.RunBatch?
    requires DoSweep(c, s, p, s.procs[p].phase.ver, s.procs[p].phase.sweep, a) == Some(s')
    ensures s'.flags == s.flags
  {
    hide Flagged, IsMax, Superseded;
  }

  lemma RenewKeepsFlags(c: Config, s: State, p: Pid, a: Action, s': State)
    requires p in s.procs && s.procs[p].phase.Sweeping?
    requires Renew(c, s, p, s.procs[p].phase.ver, s.procs[p].phase.sweep, a) == Some(s')
    ensures s'.flags == s.flags
  {
    hide Elapsed, Budget;
  }

  lemma ConcludeKeepsFlags(c: Config, s: State, p: Pid, a: Action, s': State)
    requires p in s.procs && Conclude(c, s, p, a) == Some(s')
    ensures s'.flags == s.flags
  {
    hide Superseded;
  }
}
