/**
 No request waits for ever on the two locks: in every reachable state in which a request has not
 ended, some request or shutdown can go on, and going on like that ends them all.
 */
module RelayProgress {
  import opened Options
  import opened RelayAccess
  import opened RelayRuns
  import opened TcpRelaySpec

  /** The steps with which requests and shutdowns go on by themselves: nobody arrives, nobody is
      cancelled, nothing expires, and no server fails. */
  predicate GoesOn(step: Step) {
    step.CommitRevoke? || step.LockDevice? || step.DetachDevice? || step.Drained? || step.LockManager? || step.NoPort?
    || step.ServingStarted? || step.RecheckDevice? || step.UndoOpen? || step.Snapshot?
  }

  // ---------- Nobody waits for a shutdown that never comes ----------

  ghost predicate NobodyAwaitsOrphans(s: System) {
    forall p: nat, id: nat :: Drains(s, p, id) ==> id !in s.orphans
  }

  /** Two requests never wait for the same relay: it is of one device, and that device's lock is held once. */
  lemma OneDrains(c: Config, s: System, p: nat, q: nat, id: nat)
    requires Inv(c, s) && Drains(s, p, id) && Drains(s, q, id)
    ensures p == q
  {
    assert s.requests[p].device == s.m.objects[id].allocation.device == s.requests[q].device;
    assert HoldsDevice(s.requests[p].pc) && HoldsDevice(s.requests[q].pc);
  }

  lemma CancelLeavesNoAwaitedOrphan(c: Config, s: System, p: nat)
    requires Inv(c, s) && NobodyAwaitsOrphans(s) && Enabled(c, s, CancelRequest(p))
    ensures NobodyAwaitsOrphans(Apply(c, s, CancelRequest(p)))
  {
    var s' := Apply(c, s, CancelRequest(p));
    forall q: nat, id: nat | Drains(s', q, id) ensures id !in s'.orphans {
      assert q != p && Drains(s, q, id);
      if id in s'.orphans {
        assert Drains(s, p, id);
        OneDrains(c, s, p, q, id);
      }
    }
  }

  lemma DetachLeavesNoAwaitedOrphan(c: Config, s: System, p: nat)
    requires Inv(c, s) && NobodyAwaitsOrphans(s) && Enabled(c, s, DetachDevice(p))
    ensures NobodyAwaitsOrphans(Apply(c, s, DetachDevice(p)))
  {
    var s', ids := Apply(c, s, DetachDevice(p)), LiveOf(s.m, s.requests[p].device);
    LiveOfIsLive(s, s.requests[p].device);
    assert s'.orphans == s.orphans && s'.requests == s.requests[p := s.requests[p].(pc := Draining(ids))];
    forall q: nat, id: nat | Drains(s', q, id) ensures id !in s.orphans {
      if q == p {
        assert Live(s.m, id) && !GoingDown(s, id);
      } else {
        assert Drains(s, q, id);
      }
    }
  }

  lemma OthersAwaitTheSame(c: Config, s: System, step: Step)
    requires Consistent(s.m) && Enabled(c, s, step) && !step.CancelRequest? && !step.DetachDevice?
    ensures var s' := Apply(c, s, step); s'.orphans == s.orphans && forall p: nat, id: nat :: Drains(s', p, id) ==> Drains(s, p, id)
  {
    if MovesHandler(step) {
      HandlersOnly(c, s, step);
    } else if MovesQuietly(step) {
      QuietlyAwaitTheSame(c, s, step);
    } else {
      ElseAwaitTheSame(c, s, step);
    }
  }

  lemma QuietlyAwaitTheSame(c: Config, s: System, step: Step)
    requires Consistent(s.m) && Enabled(c, s, step) && MovesQuietly(step)
    ensures var s' := Apply(c, s, step); s'.orphans == s.orphans && forall p: nat, id: nat :: Drains(s', p, id) ==> Drains(s, p, id)
  {
  }

  lemma ElseAwaitTheSame(c: Config, s: System, step: Step)
    requires Consistent(s.m) && Enabled(c, s, step) && !MovesQuietly(step) && !MovesHandler(step) && !step.CancelRequest? && !step.DetachDevice?
    ensures var s' := Apply(c, s, step); s'.orphans == s.orphans && forall p: nat, id: nat :: Drains(s', p, id) ==> Drains(s, p, id)
  {
    if step.Arrive? || step.PublishRelay? || step.ServingFails? || step.UndoOpen? {
      AwaitsNothing(c, s, step);
    } else {
      assert Apply(c, s, step).requests == s.requests;
    }
  }

  lemma AwaitsNothing(c: Config, s: System, step: Step)
    requires Consistent(s.m) && Enabled(c, s, step) && (step.Arrive? || step.PublishRelay? || step.ServingFails? || step.UndoOpen?)
    ensures var s' := Apply(c, s, step); s'.orphans == s.orphans && forall p: nat, id: nat :: Drains(s', p, id) ==> Drains(s, p, id)
  {
    var s' := Apply(c, s, step);
    assert s'.requests == s.requests[step.p := s'.requests[step.p]] && !s'.requests[step.p].pc.Draining?;
  }

  lemma {:induction false} RunAwaitsNoOrphan(c: Config, steps: seq<Step>)
    requires ConfigOk(c)
    ensures NobodyAwaitsOrphans(Exec(c, steps))
  {
    if steps != [] {
      var s, step := Exec(c, steps[..|steps|-1]), steps[|steps|-1];
      RunKeeps(c, steps[..|steps|-1]);
      RunAwaitsNoOrphan(c, steps[..|steps|-1]);
      if Enabled(c, s, step) {
        StepAwaitsNoOrphan(c, s, step);
      }
    }
  }

  lemma StepAwaitsNoOrphan(c: Config, s: System, step: Step)
    requires Inv(c, s) && NobodyAwaitsOrphans(s) && Enabled(c, s, step)
    ensures NobodyAwaitsOrphans(Apply(c, s, step))
  {
    if step.CancelRequest? {
      CancelLeavesNoAwaitedOrphan(c, s, step.p);
    } else if step.DetachDevice? {
      DetachLeavesNoAwaitedOrphan(c, s, step.p);
    } else {
      OthersAwaitTheSame(c, s, step);
    }
  }

  // ---------- Somebody can go on ----------

  /** The request inside the device lock, nobody being inside the manager lock. */
  lemma LockHolderGoesOn(c: Config, s: System, q: nat) returns (step: Step)
    requires Inv(c, s) && NobodyAwaitsOrphans(s) && s.managerLock.None? && q in s.requests && HoldsDevice(s.requests[q].pc)
    ensures GoesOn(step) && Enabled(c, s, step)
  {
    match s.requests[q].pc
    case WantDetach => step := DetachDevice(q);
    case WantManagerLock => step := LockManager(q);
    case Draining(ids) =>
      if ids <= s.snapped {
        step := Drained(q);
      } else {
        var id :| id in ids && id !in s.snapped;
        assert Drains(s, q, id);
        step := Snapshot(id);
      }
  }

  lemma SomebodyGoesOn(c: Config, s: System, p: nat) returns (step: Step)
    requires Inv(c, s) && NobodyAwaitsOrphans(s) && p in s.requests && !Ended(s.requests[p].pc)
    ensures GoesOn(step) && Enabled(c, s, step)
  {
    if s.managerLock.Some? {
      var q := s.managerLock.value;
      step := if s.requests[q].pc.Creating? then NoPort(q) else ServingStarted(q);
    } else {
      match s.requests[p].pc
      case Asked => step := CommitRevoke(p);
      case Recheck(_) => step := RecheckDevice(p, true);
      case Undo(id) =>
        assert RequestOk(s, p);
        step := UndoOpen(p);
      case WantDeviceLock =>
        if s.requests[p].device in s.deviceLocks {
          step := LockHolderGoesOn(c, s, s.deviceLocks[s.requests[p].device]);
        } else {
          step := LockDevice(p);
        }
      case _ => step := LockHolderGoesOn(c, s, p);
    }
  }

  /** No reachable state is stuck: as long as a request has not ended, some step can be taken with which a
      request or a shutdown goes on, and no cancellation, failure or arrival is needed for it. */
  lemma NoRequestIsStuck(c: Config, steps: seq<Step>, p: nat)
    requires ConfigOk(c)
    ensures var s := Exec(c, steps);
      p in s.requests && !s.requests[p].pc.Opened? && !s.requests[p].pc.GaveUp? && !s.requests[p].pc.Refused? && !s.requests[p].pc.Closed? ==>
        exists step :: GoesOn(step) && Enabled(c, s, step)
  {
    var s := Exec(c, steps);
    if p in s.requests && !Ended(s.requests[p].pc) {
      RunKeeps(c, steps);
      RunAwaitsNoOrphan(c, steps);
      var step := SomebodyGoesOn(c, s, p);
    }
  }

  // ---------- Going on ends every request ----------

  /** How many steps of its own a request has left at most. */
  function Rank(pc: Pc): nat {
    match pc
    case Asked => 9
    case WantDeviceLock => 8
    case WantDetach => 7
    case Draining(_) => 6
    case WantManagerLock => 5
    case Creating => 4
    case Serving(_) => 3
    case Recheck(_) => 2
    case Undo(_) => 1
    case _ => 0
  }

  ghost function StepsLeft(s: System): set<(nat, nat)> {
    set p, r | p in s.requests && 0 <= r < Rank(s.requests[p].pc) :: (p, r)
  }

  ghost function ShutdownsLeft(s: System): set<nat> {
    set id: nat | id < |s.m.objects| && s.m.objects[id].closing && id !in s.snapped
  }

  lemma RankFalls(c: Config, s: System, step: Step)
    requires Consistent(s.m) && GoesOn(step) && !step.Snapshot? && Enabled(c, s, step)
    ensures step.p in s.requests && step.p in Apply(c, s, step).requests
    ensures var s' := Apply(c, s, step);
      s'.requests == s.requests[step.p := s'.requests[step.p]] && Rank(s'.requests[step.p].pc) < Rank(s.requests[step.p].pc)
  {
    if MovesQuietly(step) {
      RankFallsQuietly(c, s, step);
    }
  }

  lemma RankFallsQuietly(c: Config, s: System, step: Step)
    requires Consistent(s.m) && MovesQuietly(step) && Enabled(c, s, step)
    ensures var s' := Apply(c, s, step);
      s'.requests == s.requests[step.p := s'.requests[step.p]] && Rank(s'.requests[step.p].pc) < Rank(s.requests[step.p].pc)
  {
  }

  lemma FewerSteps(s: System, s': System, p: nat)
    requires p in s.requests && p in s'.requests && s'.requests == s.requests[p := s'.requests[p]]
    requires Rank(s'.requests[p].pc) < Rank(s.requests[p].pc)
    ensures StepsLeft(s') < StepsLeft(s)
  {
    var r := Rank(s'.requests[p].pc);
    assert (p, r) in StepsLeft(s) && (p, r) !in StepsLeft(s');
  }

  lemma GoingOnFinishes(c: Config, s: System, step: Step)
    requires Consistent(s.m) && GoesOn(step) && Enabled(c, s, step)
    ensures var s' := Apply(c, s, step);
      StepsLeft(s') < StepsLeft(s) || (StepsLeft(s') == StepsLeft(s) && ShutdownsLeft(s') < ShutdownsLeft(s))
  {
    var s' := Apply(c, s, step);
    if step.Snapshot? {
      assert s'.requests == s.requests;
      assert step.id in ShutdownsLeft(s) && step.id !in ShutdownsLeft(s');
    } else {
      RankFalls(c, s, step);
      FewerSteps(s, s', step.p);
    }
  }

  ghost predicate AllEnded(s: System) {
    forall p :: p in s.requests ==> Ended(s.requests[p].pc)
  }

  lemma OneStepOn(c: Config, steps: seq<Step>, s: System) returns (step: Step, next: System)
    requires ConfigOk(c) && Exec(c, steps) == s && Inv(c, s) && NobodyAwaitsOrphans(s) && !AllEnded(s)
    ensures GoesOn(step) && Exec(c, steps + [step]) == next && Inv(c, next) && NobodyAwaitsOrphans(next)
    ensures StepsLeft(next) < StepsLeft(s) || (StepsLeft(next) == StepsLeft(s) && ShutdownsLeft(next) < ShutdownsLeft(s))
  {
    var p :| p in s.requests && !Ended(s.requests[p].pc);
    step := SomebodyGoesOn(c, s, p);
    next := Apply(c, s, step);
    Extend(c, steps, step);
    StepKeeps(c, s, step);
    StepAwaitsNoOrphan(c, s, step);
    GoingOnFinishes(c, s, step);
  }

  ghost predicate AllGoOn(steps: seq<Step>) {
    forall i :: 0 <= i < |steps| ==> GoesOn(steps[i])
  }

  lemma OneMore(steps: seq<Step>, step: Step, more: seq<Step>)
    requires GoesOn(step) && AllGoOn(more)
    ensures steps + [step] + more == steps + ([step] + more) && AllGoOn([step] + more)
  {
  }

  lemma {:induction false} FinishFrom(c: Config, steps: seq<Step>, s: System) returns (more: seq<Step>)
    requires ConfigOk(c) && Exec(c, steps) == s && Inv(c, s) && NobodyAwaitsOrphans(s)
    ensures AllGoOn(more) && AllEnded(Exec(c, steps + more))
    decreases StepsLeft(s), ShutdownsLeft(s)
  {
    if AllEnded(s) {
      more := [];
      assert steps + more == steps;
    } else {
      var step, next := OneStepOn(c, steps, s);
      var rest := FinishFrom(c, steps + [step], next);
      OneMore(steps, step, rest);
      more := [step] + rest;
    }
  }

  /** Every run can be continued by such steps alone to a state in which every request has ended. */
  lemma EveryRequestCanEnd(c: Config, steps: seq<Step>)
    requires ConfigOk(c)
    ensures exists more: seq<Step> :: AllGoOn(more) && AllEnded(Exec(c, steps + more))
  {
    RunKeeps(c, steps);
    RunAwaitsNoOrphan(c, steps);
    var more := FinishFrom(c, steps, Exec(c, steps));
  }
}
