/**
 The other half of `RelayRuns`: what opens and clients come to, told from the states in which they
 asked, and that no request waits for ever.
 */
module RelayOpens {
  import opened Options
  import opened RelayAccess
  import opened RelayRuns
  import opened TcpRelaySpec

  // ---------- When an open succeeds ----------

  /** Step `k` reads the database again for request `p`, which has published relay `id`, finds its
      device active, and its answer is committed. */
  ghost predicate ConfirmedAt(c: Config, steps: seq<Step>, k: nat, p: nat, id: nat) {
    && k < |steps| && steps[k] == RecheckDevice(p, true)
    && var s := Exec(c, steps[..k]);
    && p in s.requests && s.requests[p].pc == Recheck(id)
    && s.requests[p].device in s.devices && s.devices[s.requests[p].device] == Active
  }

  /** Over a whole run: an open succeeds if and only if such a step was taken. */
  lemma OpenedExactlyWhen(c: Config, steps: seq<Step>, p: nat, id: nat)
    requires ConfigOk(c)
    ensures IsThere(Exec(c, steps), p, Opened(id)) <==> exists k: nat :: ConfirmedAt(c, steps, k, p, id)
  {
    if IsThere(Exec(c, steps), p, Opened(id)) {
      var k := EndedByAStep(c, steps, p, Opened(id));
      assert ConfirmedAt(c, steps, k, p, id);
    } else if k: nat :| ConfirmedAt(c, steps, k, p, id) {
      assert EndsAt(c, steps, k, p, Opened(id));
      EndedSince(c, steps, k, p, Opened(id));
    }
  }

  /** A re-check that finds the device gone, or whose answer is not committed, leads to closing again. */
  lemma RecheckDecides(c: Config, steps: seq<Step>, k: nat, p: nat, id: nat, committed: bool)
    requires ConfigOk(c) && k < |steps| && steps[k] == RecheckDevice(p, committed) && IsThere(Exec(c, steps[..k]), p, Recheck(id))
    ensures IsThere(Exec(c, steps[..k+1]), p, if ConfirmedAt(c, steps, k, p, id) then Opened(id) else Undo(id))
  {
    AtNext(c, steps, k);
    ConsistentThere(c, steps[..k]);
  }

  /** The relay of an open that succeeded is live if and only if no step of the run closed it. */
  lemma OpenedIsLiveUnlessClosed(c: Config, steps: seq<Step>, p: nat, id: nat)
    requires ConfigOk(c)
    ensures var s := Exec(c, steps);
      IsThere(s, p, Opened(id)) ==>
        (LiveFor(s, id, s.requests[p].device) <==> !exists k: nat :: ClosesAt(c, steps, k, id))
  {
    RunKeeps(c, steps);
    var s := Exec(c, steps);
    if IsThere(s, p, Opened(id)) {
      assert RequestOk(s, p) && NamedBy(s, p, id);
      if IsClosing(s, id) {
        NothingClosedAtFirst(c, steps, id);
        var j := ClosedByAStep(c, steps, id);
      } else if k: nat :| ClosesAt(c, steps, k, id) {
        ClosedSince(c, steps, k, id);
      }
    }
  }

  // ---------- Arrivals ----------

  /** Request `p` arrives at step `k`. */
  ghost predicate ArrivedAt(c: Config, steps: seq<Step>, k: nat, p: nat, role: Role, device: nat) {
    k < |steps| && steps[k] == Arrive(p, role, device) && p !in Exec(c, steps[..k]).requests
  }

  ghost predicate IsFor(s: System, p: nat, role: Role, device: nat) {
    p in s.requests && s.requests[p].role == role && s.requests[p].device == device
  }

  lemma ArrivesOrStays(c: Config, s: System, step: Step, p: nat, role: Role, device: nat)
    requires Consistent(s.m) && IsFor(Next(c, s, step), p, role, device)
    ensures IsFor(s, p, role, device) || (p !in s.requests && step == Arrive(p, role, device))
  {
    if Enabled(c, s, step) {
      RequestsStay(c, s, step, p);
    }
  }

  /** A request keeps its role and its device, and only an arrival makes one. */
  lemma RequestsStay(c: Config, s: System, step: Step, p: nat)
    requires Consistent(s.m) && Enabled(c, s, step) && p in Apply(c, s, step).requests
    ensures var q := Apply(c, s, step).requests[p];
      if p in s.requests then q.role == s.requests[p].role && q.device == s.requests[p].device
      else step == Arrive(p, q.role, q.device)
  {
    if MovesHandler(step) {
      HandlersOnly(c, s, step);
    } else if MovesQuietly(step) {
      RequestsStayQuietly(c, s, step, p);
    } else if !step.Arrive? {
      RequestsStayOtherwise(c, s, step, p);
    }
  }

  lemma RequestsStayQuietly(c: Config, s: System, step: Step, p: nat)
    requires Consistent(s.m) && Enabled(c, s, step) && p in Apply(c, s, step).requests
    requires MovesQuietly(step)
    ensures p in s.requests && Apply(c, s, step).requests[p].role == s.requests[p].role && Apply(c, s, step).requests[p].device == s.requests[p].device
  {
  }

  lemma RequestsStayOtherwise(c: Config, s: System, step: Step, p: nat)
    requires Consistent(s.m) && Enabled(c, s, step) && p in Apply(c, s, step).requests
    requires !MovesQuietly(step) && !MovesHandler(step) && !step.Arrive?
    ensures p in s.requests && Apply(c, s, step).requests[p].role == s.requests[p].role && Apply(c, s, step).requests[p].device == s.requests[p].device
  {
    if step.DetachDevice? || step.PublishRelay? || step.ServingFails? || step.UndoOpen? || step.CancelRequest? {
      assert Apply(c, s, step).requests == s.requests[step.p := Apply(c, s, step).requests[step.p]];
    } else {
      assert Apply(c, s, step).requests == s.requests;
    }
  }

  lemma LastStepArrives(c: Config, steps: seq<Step>, p: nat, role: Role, device: nat)
    requires ConfigOk(c) && IsFor(Exec(c, steps), p, role, device)
    ensures steps != []
    ensures IsFor(Exec(c, steps[..|steps|-1]), p, role, device) || ArrivedAt(c, steps, |steps| - 1, p, role, device)
  {
    ConsistentThere(c, steps[..|steps|-1]);
    ArrivesOrStays(c, Exec(c, steps[..|steps|-1]), steps[|steps|-1], p, role, device);
  }

  lemma ArrivedEarlier(c: Config, steps: seq<Step>, n: nat, k: nat, p: nat, role: Role, device: nat)
    requires k < n <= |steps|
    ensures ArrivedAt(c, steps[..n], k, p, role, device) <==> ArrivedAt(c, steps, k, p, role, device)
  {
    assert steps[..n][..k] == steps[..k];
  }

  lemma {:induction false} ArrivedAtAStep(c: Config, steps: seq<Step>, p: nat, role: Role, device: nat) returns (k: nat)
    requires ConfigOk(c) && IsFor(Exec(c, steps), p, role, device)
    ensures ArrivedAt(c, steps, k, p, role, device)
  {
    LastStepArrives(c, steps, p, role, device);
    var n := |steps| - 1;
    k := n;
    if !ArrivedAt(c, steps, n, p, role, device) {
      k := ArrivedAtAStep(c, steps[..n], p, role, device);
      ArrivedEarlier(c, steps, n, k, p, role, device);
    }
  }

  /** Every request arrived at some step of the run; unless it was refused, the device was active then,
      or revoked where the request is to delete it. */
  lemma EveryRequestArrivedInOrder(c: Config, steps: seq<Step>, p: nat)
    requires ConfigOk(c) && p in Exec(c, steps).requests
    ensures var q := Exec(c, steps).requests[p];
      exists k: nat ::
        && ArrivedAt(c, steps, k, p, q.role, q.device)
        && (q.pc != Refused ==> StatusIs(Exec(c, steps[..k]), q.device, if q.role == Delete then Revoked else Active))
  {
    var q := Exec(c, steps).requests[p];
    var k := ArrivedAtAStep(c, steps, p, q.role, q.device);
    if !StatusIs(Exec(c, steps[..k]), q.device, if q.role == Delete then Revoked else Active) {
      assert EndsAt(c, steps, k, p, Refused);
      EndedSince(c, steps, k, p, Refused);
    }
  }

  // ---------- What becomes of a device's row ----------

  /** A revoke of the device that waited commits. */
  ghost predicate RevokesRow(s: System, step: Step, device: nat) {
    step.CommitRevoke? && step.p in s.requests && s.requests[step.p].pc == Asked && s.requests[step.p].device == device
  }

  /** The device goes with its company, or a delete of it arrives after its revocation. */
  predicate DeletesRow(s: System, step: Step, device: nat) {
    || (step == DeleteWithCompany(device) && device in s.devices)
    || (step.Arrive? && step.role == Delete && step.device == device && step.p !in s.requests && StatusIs(s, device, Revoked))
  }

  lemma RowsByStep(c: Config, s: System, step: Step, device: nat)
    requires Consistent(s.m)
    ensures var s' := Next(c, s, step);
      && (StatusIs(s', device, Active) <==>
            (StatusIs(s, device, Active) && !RevokesRow(s, step, device) && step != DeleteWithCompany(device)) || (device !in s.devices && step == Enroll(device)))
      && (StatusIs(s', device, Deleted) <==> StatusIs(s, device, Deleted) || DeletesRow(s, step, device))
      && (device in s'.devices <==> device in s.devices || step == Enroll(device))
  {
    if Enabled(c, s, step) && step.CommitRevoke? {
      CommitByStep(c, s, step.p, device);
    } else if Enabled(c, s, step) && step.Arrive? {
      ArriveByStep(c, s, step, device);
    } else if Enabled(c, s, step) && (step.Enroll? || step.DeleteWithCompany?) {
      assert !RevokesRow(s, step, device);
    } else {
      assert Next(c, s, step).devices == s.devices;
      assert !DeletesRow(s, step, device) && !RevokesRow(s, step, device);
    }
  }

  lemma ArriveByStep(c: Config, s: System, step: Step, device: nat)
    requires Consistent(s.m) && Enabled(c, s, step) && step.Arrive?
    ensures var s' := Apply(c, s, step);
      && (StatusIs(s', device, Active) <==> StatusIs(s, device, Active))
      && (StatusIs(s', device, Deleted) <==> StatusIs(s, device, Deleted) || DeletesRow(s, step, device))
      && (device in s'.devices <==> device in s.devices)
  {
  }

  lemma CommitByStep(c: Config, s: System, p: nat, device: nat)
    requires Consistent(s.m) && Enabled(c, s, CommitRevoke(p))
    ensures var s' := Apply(c, s, CommitRevoke(p));
      && (StatusIs(s', device, Active) <==> StatusIs(s, device, Active) && !RevokesRow(s, CommitRevoke(p), device))
      && (StatusIs(s', device, Deleted) <==> StatusIs(s, device, Deleted))
      && (device in s'.devices <==> device in s.devices)
  {
  }

  /** After every run: what one more step makes of a device's row. It is active from its enrollment until a revoke
      commits or it goes with its company, and it is deleted, for good, once it went so or was deleted
      after its revocation. */
  lemma RowsFollowTheSteps(c: Config, steps: seq<Step>, step: Step, device: nat)
    requires ConfigOk(c)
    ensures var s, s' := Exec(c, steps), Exec(c, steps + [step]);
      && (StatusIs(s', device, Active) <==>
            (StatusIs(s, device, Active) && !RevokesRow(s, step, device) && step != DeleteWithCompany(device)) || (device !in s.devices && step == Enroll(device)))
      && (StatusIs(s', device, Deleted) <==> StatusIs(s, device, Deleted) || DeletesRow(s, step, device))
      && (device in s'.devices <==> device in s.devices || step == Enroll(device))
  {
    ConsistentThere(c, steps);
    Extend(c, steps, step);
    RowsByStep(c, Exec(c, steps), step, device);
  }

  // ---------- What an open comes to that nobody disturbs ----------

  /** Request `p` is an open of the device and stands at `pc`. */
  function Asking(s: System, p: nat, device: nat, pc: Pc): System {
    s.(requests := s.requests[p := Request(Open, device, pc)])
  }

  /** ... and holds the device's lock. */
  function Locking(s: System, p: nat, device: nat, pc: Pc): System {
    Asking(s.(deviceLocks := s.deviceLocks[device := p]), p, device, pc)
  }

  lemma AskingTwice(s: System, p: nat, device: nat, pc: Pc, pc': Pc)
    ensures SetPc(Asking(s, p, device, pc), p, pc') == Asking(s, p, device, pc')
    ensures SetPc(Locking(s, p, device, pc), p, pc') == Locking(s, p, device, pc')
  {
    assert s.requests[p := Request(Open, device, pc)][p := Request(Open, device, pc')] == s.requests[p := Request(Open, device, pc')];
  }

  lemma ArriveNext(c: Config, s: System, p: nat, device: nat)
    requires Consistent(s.m) && p !in s.requests
    ensures Next(c, s, Arrive(p, Open, device)) == Asking(s, p, device, if StatusIs(s, device, Active) then WantDeviceLock else Refused)
  {
  }

  lemma LockNext(c: Config, s: System, p: nat, device: nat)
    requires Consistent(s.m) && device !in s.deviceLocks
    ensures Next(c, Asking(s, p, device, WantDeviceLock), LockDevice(p)) == Locking(s, p, device, WantDetach)
  {
    var at := Asking(s, p, device, WantDeviceLock);
    assert Next(c, at, LockDevice(p)) == SetPc(at.(deviceLocks := at.deviceLocks[device := p]), p, WantDetach);
    AskingTwice(s.(deviceLocks := s.deviceLocks[device := p]), p, device, WantDeviceLock, WantDetach);
  }

  /** There is nothing to close. */
  lemma DetachNext(c: Config, s: System, p: nat, device: nat)
    requires Consistent(s.m) && s.managerLock.None? && LiveOf(s.m, device) == {}
    ensures Next(c, Locking(s, p, device, WantDetach), DetachDevice(p)) == Locking(s, p, device, Draining({}))
  {
    var at := Locking(s, p, device, WantDetach);
    DetachNone(s.m);
    assert s.detachLog + multiset({}) == s.detachLog;
    assert DetachAll(at, {}) == at;
    AskingTwice(s, p, device, WantDetach, Draining({}));
  }

  lemma DrainedNext(c: Config, s: System, p: nat, device: nat, ids: set<nat>)
    requires Consistent(s.m) && ids <= s.snapped
    ensures Next(c, Locking(s, p, device, Draining(ids)), Drained(p)) == Locking(s, p, device, WantManagerLock)
  {
    AskingTwice(s, p, device, Draining(ids), WantManagerLock);
  }

  lemma LockManagerNext(c: Config, s: System, p: nat, device: nat)
    requires Consistent(s.m) && s.managerLock.None?
    ensures Next(c, Locking(s, p, device, WantManagerLock), LockManager(p)) == Locking(s.(managerLock := Some(p)), p, device, Creating)
  {
    AskingTwice(s.(managerLock := Some(p)), p, device, WantManagerLock, Creating);
  }

  predicate MayHave(c: Config, s: System, device: nat, a: Allocation) {
    a.device == device && c.portMin <= a.port <= c.portMax && a.port !in s.m.relays
  }

  lemma PublishNext(c: Config, s: System, p: nat, device: nat, a: Allocation)
    requires Consistent(s.m) && MayHave(c, s, device, a)
    ensures Next(c, Locking(s, p, device, Creating), PublishRelay(p, a)) == Locking(s.(m := Publish(s.m, a)), p, device, Serving(|s.m.objects|))
  {
    AskingTwice(s.(m := Publish(s.m, a)), p, device, Creating, Serving(|s.m.objects|));
  }

  lemma StartedNext(c: Config, s: System, p: nat, device: nat, id: nat)
    requires Consistent(s.m) && device !in s.deviceLocks
    ensures Next(c, Locking(s.(managerLock := Some(p)), p, device, Serving(id)), ServingStarted(p)) == Asking(s.(managerLock := None), p, device, Recheck(id))
  {
    assert s.deviceLocks[device := p] - {device} == s.deviceLocks;
    AskingTwice(s.(managerLock := None), p, device, Serving(id), Recheck(id));
  }

  lemma RecheckNext(c: Config, s: System, p: nat, device: nat, id: nat)
    requires Consistent(s.m) && StatusIs(s, device, Active)
    ensures Next(c, Asking(s, p, device, Recheck(id)), RecheckDevice(p, true)) == Asking(s, p, device, Opened(id))
  {
    AskingTwice(s, p, device, Recheck(id), Opened(id));
  }

  /** From holding the device lock over nothing to the answer. */
  function Serves(steps: seq<Step>, p: nat, a: Allocation): seq<Step> {
    steps + [Drained(p)] + [LockManager(p)] + [PublishRelay(p, a)] + [ServingStarted(p)] + [RecheckDevice(p, true)]
  }

  lemma PublishedFrom(c: Config, steps: seq<Step>, s: System, p: nat, device: nat, ids: set<nat>, a: Allocation)
    requires Consistent(s.m) && Exec(c, steps) == Locking(s, p, device, Draining(ids)) && ids <= s.snapped
    requires s.managerLock.None? && MayHave(c, s, device, a)
    ensures Exec(c, steps + [Drained(p)] + [LockManager(p)] + [PublishRelay(p, a)]) ==
      Locking(s.(managerLock := Some(p), m := Publish(s.m, a)), p, device, Serving(|s.m.objects|))
  {
    Extend(c, steps, Drained(p));
    DrainedNext(c, s, p, device, ids);
    Extend(c, steps + [Drained(p)], LockManager(p));
    LockManagerNext(c, s, p, device);
    Extend(c, steps + [Drained(p)] + [LockManager(p)], PublishRelay(p, a));
    PublishNext(c, s.(managerLock := Some(p)), p, device, a);
  }

  lemma ServesFrom(c: Config, steps: seq<Step>, s: System, p: nat, device: nat, ids: set<nat>, a: Allocation)
    requires Consistent(s.m) && Exec(c, steps) == Locking(s, p, device, Draining(ids)) && ids <= s.snapped
    requires s.managerLock.None? && device !in s.deviceLocks && StatusIs(s, device, Active) && MayHave(c, s, device, a)
    ensures Exec(c, Serves(steps, p, a)) == Asking(s.(m := Publish(s.m, a)), p, device, Opened(|s.m.objects|))
  {
    var r3 := steps + [Drained(p)] + [LockManager(p)] + [PublishRelay(p, a)];
    var t := s.(m := Publish(s.m, a));
    PublishedFrom(c, steps, s, p, device, ids, a);
    PublishConsistent(s.m, a);
    Extend(c, r3, ServingStarted(p));
    StartedNext(c, t, p, device, |s.m.objects|);
    Extend(c, r3 + [ServingStarted(p)], RecheckDevice(p, true));
    RecheckNext(c, t, p, device, |s.m.objects|);
  }

  lemma LockedAlone(c: Config, steps: seq<Step>, p: nat, device: nat)
    requires ConfigOk(c)
    requires var s := Exec(c, steps); p !in s.requests && StatusIs(s, device, Active) && device !in s.deviceLocks
    ensures Exec(c, steps + [Arrive(p, Open, device)] + [LockDevice(p)]) == Locking(Exec(c, steps), p, device, WantDetach)
  {
    var s := Exec(c, steps);
    ConsistentThere(c, steps);
    Extend(c, steps, Arrive(p, Open, device));
    ArriveNext(c, s, p, device);
    Extend(c, steps + [Arrive(p, Open, device)], LockDevice(p));
    LockNext(c, s, p, device);
  }

  /** After every run: when the device is active and has no live relay, both locks are free and so is the
      port, then an open that nobody disturbs ends with a live relay of its own on that port, and
      nothing else is different. */
  lemma AnUndisturbedOpenServes(c: Config, steps: seq<Step>, p: nat, device: nat, a: Allocation)
    requires ConfigOk(c)
    requires var s := Exec(c, steps);
      && p !in s.requests && device in s.devices && s.devices[device] == Active && device !in s.deviceLocks && s.managerLock.None?
      && (forall id: nat :: !LiveFor(s, id, device)) && a.device == device && c.portMin <= a.port <= c.portMax && a.port !in s.m.relays
    ensures var s := Exec(c, steps);
      Exec(c, Serves(steps + [Arrive(p, Open, device)] + [LockDevice(p)] + [DetachDevice(p)], p, a)) ==
      s.(m := Manager(s.m.relays[a.port := |s.m.objects|], s.m.objects + [Relay(a, false, 0, {}, {})], s.m.withdrawn),
         requests := s.requests[p := Request(Open, device, Opened(|s.m.objects|))])
  {
    var s := Exec(c, steps);
    var r2 := steps + [Arrive(p, Open, device)] + [LockDevice(p)];
    RunKeeps(c, steps);
    LockedAlone(c, steps, p, device);
    Extend(c, r2, DetachDevice(p));
    LiveOfIsLive(s, device);
    DetachNext(c, s, p, device);
    ServesFrom(c, r2 + [DetachDevice(p)], s, p, device, {}, a);
  }

  /** Relay `id` is closed: it leaves its port, and every handler among its tasks is cancelled. */
  function Replaced(s: System, id: nat): System
    requires id < |s.m.objects|
  {
    s.(m := Manager(s.m.relays - {s.m.objects[id].allocation.port}, s.m.objects[id := s.m.objects[id].(closing := true)], s.m.withdrawn),
       detachLog := s.detachLog + multiset{id},
       snapped := s.snapped + {id},
       handlers := map t | t in s.handlers ::
         if s.handlers[t].relay == id && t in s.m.objects[id].tasks then s.handlers[t].(cancelled := true) else s.handlers[t])
  }

  lemma DetachOne(m: Manager, id: nat)
    requires Consistent(m) && Live(m, id)
    ensures DetachSet(m, {id}) == Manager(m.relays - {m.objects[id].allocation.port}, m.objects[id := m.objects[id].(closing := true)], m.withdrawn)
  {
    var d := DetachSet(m, {id});
    assert d.objects == m.objects[id := m.objects[id].(closing := true)];
    forall port | port in m.relays ensures m.relays[port] == id <==> port == m.objects[id].allocation.port {
      assert Live(m, m.relays[port]);
    }
    assert d.relays == m.relays - {m.objects[id].allocation.port};
  }

  lemma DetachOneNext(c: Config, s: System, p: nat, device: nat, id: nat)
    requires Consistent(s.m) && s.managerLock.None? && Live(s.m, id) && LiveOf(s.m, device) == {id}
    ensures Next(c, Locking(s, p, device, WantDetach), DetachDevice(p)) ==
      Locking(s.(m := DetachSet(s.m, {id}), detachLog := s.detachLog + multiset{id}), p, device, Draining({id}))
  {
    var t := s.(m := DetachSet(s.m, {id}), detachLog := s.detachLog + multiset{id});
    assert multiset({id}) == multiset{id};
    assert DetachAll(Locking(s, p, device, WantDetach), {id}) == Locking(t, p, device, WantDetach);
    AskingTwice(t, p, device, WantDetach, Draining({id}));
  }

  lemma SnapshotNext(c: Config, s: System, p: nat, device: nat, id: nat)
    requires Consistent(s.m) && Live(s.m, id) && id !in s.snapped && id !in s.orphans
    requires Consistent(DetachSet(s.m, {id}))
    ensures Next(c, Locking(s.(m := DetachSet(s.m, {id}), detachLog := s.detachLog + multiset{id}), p, device, Draining({id})), Snapshot(id)) ==
      Locking(Replaced(s, id), p, device, Draining({id}))
  {
    DetachOne(s.m, id);
    var t := s.(m := DetachSet(s.m, {id}), detachLog := s.detachLog + multiset{id});
    var after := SnapshotAll(t, {id});
    assert t.m.objects[id].tasks == s.m.objects[id].tasks;
    assert after.handlers == Replaced(s, id).handlers;
    assert after.snapped == Replaced(s, id).snapped && after.m == Replaced(s, id).m && after.detachLog == Replaced(s, id).detachLog;
    assert SnapshotAll(Locking(t, p, device, Draining({id})), {id}) == Locking(after, p, device, Draining({id}));
  }

  /** Where the device still has a live relay, such an open closes that one first, and then ends with a
      live relay of its own; it may take the old one's port. */
  lemma AnOpenReplacesTheRelay(c: Config, steps: seq<Step>, p: nat, device: nat, id: nat, a: Allocation)
    requires ConfigOk(c)
    requires var s := Exec(c, steps);
      && p !in s.requests && device in s.devices && s.devices[device] == Active && device !in s.deviceLocks && s.managerLock.None?
      && LiveFor(s, id, device) && a.device == device && c.portMin <= a.port <= c.portMax && (a.port !in s.m.relays || s.m.relays[a.port] == id)
    ensures var s := Exec(c, steps);
      Exec(c, Serves(steps + [Arrive(p, Open, device)] + [LockDevice(p)] + [DetachDevice(p)] + [Snapshot(id)], p, a)) ==
      Asking(Replaced(s, id).(m := Publish(Replaced(s, id).m, a)), p, device, Opened(|s.m.objects|))
  {
    var s := Exec(c, steps);
    var r3 := steps + [Arrive(p, Open, device)] + [LockDevice(p)] + [DetachDevice(p)];
    RunKeeps(c, steps);
    OnlyRelay(c, s, device, id);
    LockedAlone(c, steps, p, device);
    Extend(c, steps + [Arrive(p, Open, device)] + [LockDevice(p)], DetachDevice(p));
    DetachOneNext(c, s, p, device, id);
    Extend(c, r3, Snapshot(id));
    SnapshotNext(c, s, p, device, id);
    DetachOne(s.m, id);
    ServesFrom(c, r3 + [Snapshot(id)], Replaced(s, id), p, device, {id}, a);
  }

  lemma OnlyRelay(c: Config, s: System, device: nat, id: nat)
    requires Inv(c, s) && LiveFor(s, id, device)
    ensures LiveOf(s.m, device) == {id} && Consistent(DetachSet(s.m, {id})) && id !in s.snapped && id !in s.orphans
    ensures s.m.objects[id].allocation.port in s.m.relays && s.m.relays[s.m.objects[id].allocation.port] == id
  {
    LiveOfIsLive(s, device);
    LiveIsMapped(s.m, {id});
    DetachSetConsistent(s.m, {id});
    forall i | i in LiveOf(s.m, device) ensures i == id {
      assert LiveFor(s, i, device);
    }
    assert id in s.orphans ==> GoingDown(s, id);
  }

  /** Such a run from the beginning: the first open of the first device. */
  lemma TheFirstOpenServes()
    ensures exists steps: seq<Step> ::
      var s := Exec(C, steps); IsThere(s, 0, Opened(0)) && LiveFor(s, 0, 1) && s.m.relays == map[20000 := 0]
  {
    Extend(C, [], Enroll(1));
    assert Exec(C, [Enroll(1)]) == START.(devices := map[1 := Active]);
    AnUndisturbedOpenServes(C, [Enroll(1)], 0, 1, A);
    var steps := Serves([Enroll(1)] + [Arrive(0, Open, 1)] + [LockDevice(0)] + [DetachDevice(0)], 0, A);
    assert Exec(C, steps).m.objects[0] == Relay(A, false, 0, {}, {});
  }
}
