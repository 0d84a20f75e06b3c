/** What an attempt of the keyword recompute has made sure of by the time it sweeps and publishes
    (backend/src/state.rs:806-1000): over every run of KeywordLease, each phase is reached from the one before, by
    a read or reply that allows it. */
module KeywordGuards {
  import opened KeywordLease
  import opened Wrappers

  /** How far an attempt has got; zero before it has loaded a version, and once it has let go. */
  function Rank(phase: Phase): nat {
    match phase
    case Begin => 0
    case Loaded(_) => 1
    case WantClaim(_) => 2
    case ClaimSent(_, _) => 3
    case Claimed(_) => 4
    case Rechecked(_) => 5
    case Confirming(_) => 6
    case ConfirmSent(_, _) => 7
    case Confirmed(_, _) => 8
    case Timer(_, _, _) => 9
    case Sweeping(_, _) => 10
    case Swept(_, ok) => if ok then 11 else 0
    case Publishing(_) => 12
    case PublishSent(_, _) => 13
    case Releasing(_) => 0
    case Finished => 0
  }

  /** What lets an attempt for `ver` get to rank `r` by the action `a` in state `s`. */
  predicate Allows(c: Config, s: State, p: Pid, a: Action, ver: Version, r: nat) {
    match r
    case 1 => a == Load(true) && s.live == ver
    case 2 => a.CheckMarker? && (a.ok ==> s.marker != Some(ver))
    case 3 => a == ClaimRun
    case 4 => a == ClaimReply(true) && p in s.procs && s.procs[p].phase == ClaimSent(ver, true)
    case 5 => a.Recheck? && (a.ok ==> s.marker != Some(ver))
    case 6 => a.CheckRequest? && (a.ok ==> s.request == None || s.request == Some(ver))
    case 7 => a == ConfirmRun
    case 8 => a == ConfirmReply(true) && p in s.procs && s.procs[p].phase.ConfirmSent? && s.procs[p].phase.effect.touched
    case 9 => a == MakeTimer
    case 10 => a == BeginSweep
    case 11 => a == ReadMax(true, None) || (a.CheckBatch? && NotSuperseded(s, a.requestOk, a.liveOk, ver))
    case 12 => a.CheckSwept? && NotSuperseded(s, a.requestOk, a.liveOk, ver)
    case 13 => a == PublishRun
    case _ => false
  }

  /** Of the requested version and the live one, the first that could be read is not another. */
  predicate NotSuperseded(s: State, requestOk: bool, liveOk: bool, ver: Version) {
    && (requestOk && s.request.Some? ==> s.request == Some(ver))
    && (liveOk && !(requestOk && s.request.Some?) ==> s.live == ver)
  }

  /** A step up, or on the same level; else the attempt has let go. */
  predicate Climbs(c: Config, s: State, p: Pid, a: Action, s': State)
    requires p in s.procs && p in s'.procs
  {
    var (before, now) := (s.procs[p], s'.procs[p]);
    var (r, r') := (Rank(before.phase), Rank(now.phase));
    now.attempt >= before.attempt &&
    (r' > 0 ==>
      && now.attempt == before.attempt && (r' == r || r' == r + 1)
      && (r > 0 ==> before.phase.ver == now.phase.ver)
      && (r' == r + 1 ==> Allows(c, s, p, a, now.phase.ver, r')))
  }

  lemma AcquireClimbs(c: Config, s: State, p: Pid, a: Action, s': State)
    requires p in s.procs && Acquire(c, s, p, a) == Some(s')
    ensures p in s'.procs && Climbs(c, s, p, a, s')
  {
    hide Stale;
  }

  lemma SweepClimbs(c: Config, s: State, p: Pid, a: Action, s': State)
    requires p in s.procs && s.procs[p].phase.Sweeping?
    requires DoSweep(c, s, p, s.procs[p].phase.ver, s.procs[p].phase.sweep, a) == Some(s')
    ensures p in s'.procs && Climbs(c, s, p, a, s')
  {
    hide Flagged, IsMax;
  }

  lemma RenewClimbs(c: Config, s: State, p: Pid, a: Action, s': State)
    requires p in s.procs && s.procs[p].phase.Sweeping?
    requires Renew(c, s, p, s.procs[p].phase.ver, s.procs[p].phase.sweep, a) == Some(s')
    ensures p in s'.procs && Climbs(c, s, p, a, s')
  {
    hide Elapsed, Budget;
  }

  lemma ConcludeClimbs(c: Config, s: State, p: Pid, a: Action, s': State)
    requires p in s.procs && Conclude(c, s, p, a) == Some(s')
    ensures p in s'.procs && Climbs(c, s, p, a, s')
  {}

  lemma ActClimbs(c: Config, s: State, p: Pid, a: Action, s': State)
    requires Step(c, s, Act(p, a)) == Some(s')
    ensures p in s'.procs && Climbs(c, s, p, a, s')
  {
    hide Acquire, DoSweep, Renew, Conclude, Climbs;
    if s.procs[p].phase.Sweeping? {
      if a.ReadMax? || a.RunBatch? || a.CheckBatch? { SweepClimbs(c, s, p, a, s'); }
      else { RenewClimbs(c, s, p, a, s'); }
    } else if s.procs[p].phase.Swept? || s.procs[p].phase.Publishing? || s.procs[p].phase.PublishSent?
              || s.procs[p].phase.Releasing? {
      ConcludeClimbs(c, s, p, a, s');
    } else {
      AcquireClimbs(c, s, p, a, s');
    }
  }

  /** Whatever happens elsewhere leaves an invocation where it is. */
  lemma OthersLeave(c: Config, s: State, l: Label, s': State, p: Pid)
    requires Step(c, s, l) == Some(s') && !(l.Act? && l.pid == p) && p in s'.procs
    ensures p in s.procs ==> s'.procs[p].phase == s.procs[p].phase && s'.procs[p].attempt == s.procs[p].attempt
    ensures p !in s.procs ==> s'.procs[p].phase == Begin
  {
    if l.Act? {
      hide Step, Traced;
      ActTraced(c, s, l.pid, l.action, s');
      OnlyOwn(c, s, l.pid, l.action, s');
    } else {
      hide Step;
      OtherStep(c, s, l, s');
    }
  }

  lemma OnlyOwn(c: Config, s: State, p: Pid, a: Action, s': State)
    requires Traced(c, s, p, a, s')
    ensures p in s'.procs && s'.procs == s.procs[p := s'.procs[p]]
  {
    hide TracedClaim, TracedRows, TracedLease;
  }

  /** At step `j` that attempt of `p` got to rank `r`, and was allowed to. */
  ghost predicate Reached(c: Config, states: seq<State>, labels: seq<Label>, j: nat, p: Pid, attempt: nat, ver: Version, r: nat) {
    && j < |labels| && j + 1 < |states| && labels[j].Act? && labels[j].pid == p
    && p in states[j].procs && states[j].procs[p].attempt == attempt && Rank(states[j].procs[p].phase) + 1 == r
    && Allows(c, states[j], p, labels[j].action, ver, r)
  }

  /** An attempt that has got somewhere has been allowed up to every rank on the way, and has not fallen back
      since. */
  lemma {:induction false} AttemptGuarded(c: Config, states: seq<State>, labels: seq<Label>, k: nat, p: Pid, r: nat)
    returns (j: nat)
    requires Run(c, states, labels) && k < |states| && p in states[k].procs
    requires 1 <= r <= Rank(states[k].procs[p].phase)
    ensures j < k
    ensures Reached(c, states, labels, j, p, states[k].procs[p].attempt, states[k].procs[p].phase.ver, r)
    ensures forall i :: j < i <= k ==> p in states[i].procs && Rank(states[i].procs[p].phase) >= r
    decreases k
  {
    hide Step, Allows;
    assert k > 0;
    var (s, l, s') := (states[k - 1], labels[k - 1], states[k]);
    assert Step(c, s, l) == Some(s');
    if l.Act? && l.pid == p {
      ActIsOfOne(c, s, l, s');
      ActClimbs(c, s, p, l.action, s');
      if Rank(s.procs[p].phase) >= r {
        j := AttemptGuarded(c, states, labels, k - 1, p, r);
      } else {
        j := k - 1;
      }
    } else {
      OthersLeave(c, s, l, s', p);
      j := AttemptGuarded(c, states, labels, k - 1, p, r);
    }
  }

  lemma ActIsOfOne(c: Config, s: State, l: Label, s': State)
    requires l.Act? && Step(c, s, l) == Some(s')
    ensures l.pid in s.procs && l == Act(l.pid, l.action)
  {}

  /** A publication rests on a last check, made after the last batch: if a requested version could be read then, it was
      the one published; else, if the live version could be read, it was that. */
  lemma PublicationChecked(c: Config, states: seq<State>, labels: seq<Label>, k: nat, p: Pid) returns (j: nat)
    requires Run(c, states, labels) && k < |labels| && labels[k] == Act(p, PublishRun)
    ensures p in states[k].procs && states[k].procs[p].phase.Publishing?
    ensures j < k && labels[j].Act? && labels[j].pid == p && labels[j].action.CheckSwept?
    ensures p in states[j].procs && states[j].procs[p].attempt == states[k].procs[p].attempt
    ensures var (a, ver) := (labels[j].action, states[k].procs[p].phase.ver);
      && (a.requestOk && states[j].request.Some? ==> states[j].request == Some(ver))
      && (a.liveOk && !(a.requestOk && states[j].request.Some?) ==> states[j].live == ver)
    ensures forall i :: j < i < k && labels[i].Act? && labels[i].pid == p ==> !labels[i].action.RunBatch?
  {
    assert Step(c, states[k], labels[k]) == Some(states[k + 1]);
    PublishesFrom(c, states[k], p, states[k + 1]);
    j := AttemptGuarded(c, states, labels, k, p, 12);
    hide Step;
    forall i | j < i < k && labels[i].Act? && labels[i].pid == p ensures !labels[i].action.RunBatch? {
      assert Step(c, states[i], labels[i]) == Some(states[i + 1]);
      ActIsOfOne(c, states[i], labels[i], states[i + 1]);
      BatchesWhileSweeping(c, states[i], p, labels[i].action, states[i + 1]);
    }
  }

  lemma PublishesFrom(c: Config, s: State, p: Pid, s': State)
    requires Step(c, s, Act(p, PublishRun)) == Some(s')
    ensures p in s.procs && s.procs[p].phase.Publishing?
  {}

  lemma BatchesWhileSweeping(c: Config, s: State, p: Pid, a: Action, s': State)
    requires Step(c, s, Act(p, a)) == Some(s')
    ensures p in s.procs && (a.RunBatch? ==> Rank(s.procs[p].phase) == 10)
  {
    hide DoSweep;
  }

  /** The attempt under way in state `k` has got to rank `r`, and was allowed to. */
  ghost predicate Passed(c: Config, states: seq<State>, labels: seq<Label>, k: nat, p: Pid, r: nat)
    requires k < |states| && p in states[k].procs && Rank(states[k].procs[p].phase) > 0
  {
    var proc := states[k].procs[p];
    exists j: nat :: j < k && Reached(c, states, labels, j, p, proc.attempt, proc.phase.ver, r)
  }

  lemma PassedAt(c: Config, states: seq<State>, labels: seq<Label>, k: nat, p: Pid, r: nat)
    requires Run(c, states, labels) && k < |states| && p in states[k].procs
    requires 1 <= r <= Rank(states[k].procs[p].phase)
    ensures Passed(c, states, labels, k, p, r)
  {
    hide Reached, Run;
    var j := AttemptGuarded(c, states, labels, k, p, r);
  }

  /** A sweep begins only for a version that was live when it was loaded, that the marker did not name when it was last
      read, and that no readable request contradicted. */
  lemma SweepChecked(c: Config, states: seq<State>, labels: seq<Label>, k: nat, p: Pid)
    requires Run(c, states, labels) && k < |states| && p in states[k].procs && states[k].procs[p].phase.Sweeping?
    ensures Passed(c, states, labels, k, p, 1)
    ensures Passed(c, states, labels, k, p, 5)
    ensures Passed(c, states, labels, k, p, 6)
  {
    hide Passed, Run;
    PassedAt(c, states, labels, k, p, 1);
    PassedAt(c, states, labels, k, p, 5);
    PassedAt(c, states, labels, k, p, 6);
  }

  /** And only after a claim that was won and a fenced renewal that found the lease still there. */
  lemma SweepOwned(c: Config, states: seq<State>, labels: seq<Label>, k: nat, p: Pid)
    requires Run(c, states, labels) && k < |states| && p in states[k].procs && states[k].procs[p].phase.Sweeping?
    ensures Passed(c, states, labels, k, p, 4)
    ensures Passed(c, states, labels, k, p, 8)
  {
    hide Passed, Run;
    PassedAt(c, states, labels, k, p, 4);
    PassedAt(c, states, labels, k, p, 8);
  }

  /** A renewal whose reply says that the lease is lost ends the sweep at once. */
  lemma LostEndsSweep(c: Config, s: State, p: Pid, s': State)
    requires Step(c, s, Act(p, RenewReply)) == Some(s')
    ensures p in s.procs && s.procs[p].phase.Sweeping? && p in s'.procs
    ensures var r := s.procs[p].phase.sweep.renewal;
      && r.InFlight? && r.effect.Some?
      && (!r.effect.value.touched ==> s'.procs[p].phase == Swept(s.procs[p].phase.ver, false))
  {
    hide Elapsed, Budget;
  }

  // ---------------------------------------------------------------- the other way round

  /** The check after a batch: the sweep ends if another version is requested or, where no request can be read, another
      one is live; else it goes on to the next batch or is complete. */
  lemma BatchCheckDecides(c: Config, s: State, p: Pid, requestOk: bool, liveOk: bool, s': State)
    requires Step(c, s, Act(p, CheckBatch(requestOk, liveOk))) == Some(s')
    ensures p in s.procs && s.procs[p].phase.Sweeping? && p in s'.procs
    ensures var ver := s.procs[p].phase.ver;
      s'.procs[p].phase == Swept(ver, false)
      <==> (if requestOk && s.request.Some? then s.request != Some(ver) else liveOk && s.live != ver)
    ensures s'.procs[p].phase.ver == s.procs[p].phase.ver
    ensures s'.procs[p].phase.Sweeping? || s'.procs[p].phase.Swept?
  {}

  /** And the check after the sweep, with what the sweep returned. */
  lemma SweptCheckDecides(c: Config, s: State, p: Pid, requestOk: bool, liveOk: bool, s': State)
    requires Step(c, s, Act(p, CheckSwept(requestOk, liveOk))) == Some(s')
    ensures p in s.procs && s.procs[p].phase.Swept? && p in s'.procs
    ensures var ver := s.procs[p].phase.ver;
      s'.procs[p].phase ==
        if s.procs[p].phase.ok
           && !(if requestOk && s.request.Some? then s.request != Some(ver) else liveOk && s.live != ver)
        then Publishing(ver) else Releasing(true)
  {}

  /** The attempt has let go, for good. */
  predicate LetGo(phase: Phase) {
    (phase.Swept? && !phase.ok) || phase.Releasing? || phase.Finished?
  }

  lemma ConcludeLetsGo(c: Config, s: State, p: Pid, a: Action, s': State)
    requires p in s.procs && LetGo(s.procs[p].phase) && Step(c, s, Act(p, a)) == Some(s')
    ensures p in s'.procs && (s'.procs[p].attempt == s.procs[p].attempt ==> LetGo(s'.procs[p].phase))
    ensures s'.procs[p].attempt >= s.procs[p].attempt
  {}

  lemma {:induction false} LetGoOn(c: Config, states: seq<State>, labels: seq<Label>, j: nat, k: nat, p: Pid)
    requires Run(c, states, labels) && j <= k < |states| && p in states[j].procs && LetGo(states[j].procs[p].phase)
    ensures p in states[k].procs && states[k].procs[p].attempt >= states[j].procs[p].attempt
    ensures states[k].procs[p].attempt == states[j].procs[p].attempt ==> LetGo(states[k].procs[p].phase)
    decreases k
  {
    hide Step;
    if j < k {
      LetGoOn(c, states, labels, j, k - 1, p);
      var (s, l, s') := (states[k - 1], labels[k - 1], states[k]);
      assert Step(c, s, l) == Some(s');
      StaysThere(c, s, l, s', p);
      if l.Act? && l.pid == p {
        ActIsOfOne(c, s, l, s');
        if LetGo(s.procs[p].phase) { ConcludeLetsGo(c, s, p, l.action, s'); }
        else { AttemptsGrow(c, s, p, l.action, s'); }
      } else {
        OthersLeave(c, s, l, s', p);
      }
    }
  }

  lemma StaysThere(c: Config, s: State, l: Label, s': State, p: Pid)
    requires Step(c, s, l) == Some(s') && p in s.procs
    ensures p in s'.procs
  {
    hide Step, TracedClaim, TracedRows, TracedLease;
    if l.Act? { ActIsOfOne(c, s, l, s'); ActTraced(c, s, l.pid, l.action, s'); } else { OtherStep(c, s, l, s'); }
  }

  lemma AttemptsGrow(c: Config, s: State, p: Pid, a: Action, s': State)
    requires p in s.procs && Step(c, s, Act(p, a)) == Some(s')
    ensures p in s'.procs && s'.procs[p].attempt >= s.procs[p].attempt
  {
    hide Step, Rank, Allows;
    ActClimbs(c, s, p, a, s');
  }

  /** A version that is requested while another one is swept ends that sweep at its next check, and its attempt
      never publishes. */
  lemma SupersededNeverPublishes(c: Config, states: seq<State>, labels: seq<Label>, j: nat, k: nat, p: Pid, liveOk: bool)
    requires Run(c, states, labels) && j < k < |labels| && labels[j] == Act(p, CheckBatch(true, liveOk))
    requires p in states[j].procs && states[j].procs[p].phase.Sweeping?
    requires states[j].request.Some? && states[j].request != Some(states[j].procs[p].phase.ver)
    ensures p in states[j + 1].procs && states[j + 1].procs[p].phase == Swept(states[j].procs[p].phase.ver, false)
    ensures labels[k] == Act(p, PublishRun) ==>
      p in states[k].procs && states[k].procs[p].attempt > states[j].procs[p].attempt
  {
    hide Step;
    assert Step(c, states[j], labels[j]) == Some(states[j + 1]);
    BatchCheckDecides(c, states[j], p, true, liveOk, states[j + 1]);
    AttemptsGrow(c, states[j], p, labels[j].action, states[j + 1]);
    LetGoOn(c, states, labels, j + 1, k, p);
    if labels[k] == Act(p, PublishRun) {
      assert Step(c, states[k], labels[k]) == Some(states[k + 1]);
      PublishesFrom(c, states[k], p, states[k + 1]);
    }
  }
}
