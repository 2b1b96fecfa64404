/**
 What holds after every run of `RelayAccess`: what revocation leaves behind, that relays are
 neither duplicated nor lost, and that forwarding ends with its relay.
 */
module RelayRuns {
  import opened Options
  import opened RelayAccess
  import opened TcpRelaySpec

  lemma Extend(c: Config, steps: seq<Step>, step: Step)
    ensures Exec(c, steps + [step]) == Next(c, Exec(c, steps), step)
  {
    assert (steps + [step])[..|steps|] == steps;
  }

  lemma PrefixOfPrefix(steps: seq<Step>, n: nat, k: nat)
    requires k <= n <= |steps|
    ensures steps[..n][..k] == steps[..k]
  {
  }

  lemma AtNext(c: Config, steps: seq<Step>, k: nat)
    requires k < |steps|
    ensures Exec(c, steps[..k+1]) == Next(c, Exec(c, steps[..k]), steps[k])
  {
    PrefixOfPrefix(steps, k + 1, k);
  }

  lemma ConsistentThere(c: Config, steps: seq<Step>)
    requires ConfigOk(c)
    ensures Consistent(Exec(c, steps).m)
  {
    RunKeeps(c, steps);
  }

  // ---------- What a revocation leaves behind ----------

  predicate Ended(pc: Pc) {
    pc.Opened? || pc.GaveUp? || pc.Refused? || pc.Closed?
  }

  ghost predicate RevokeFinished(s: System, device: nat, closer: nat) {
    closer in s.requests && s.requests[closer].device == device && s.requests[closer].pc.Closed?
  }

  ghost predicate OpensEnded(s: System, device: nat) {
    forall p :: p in s.requests && s.requests[p].device == device && s.requests[p].role == Open ==> Ended(s.requests[p].pc)
  }

  ghost predicate RequestsEnded(s: System, device: nat) {
    forall p :: p in s.requests && s.requests[p].device == device ==> Ended(s.requests[p].pc)
  }

  /** `p` published relay `id` for the device and has not read the database again since, or has
      read it and found the device gone. */
  ghost predicate Unconfirmed(s: System, p: nat, device: nat, id: nat) {
    && NamedBy(s, p, id) && s.requests[p].role == Open && s.requests[p].device == device
    && !s.requests[p].pc.Opened?
  }

  /** Once some revoke or delete of the device has finished closing, a relay of the device that
      is still live belongs to an open request that has not yet read the database again, and
      will find the device gone when it does, or that was cancelled on its way to closing it. */
  lemma LiveAfterRevokeIsUnconfirmed(c: Config, steps: seq<Step>, device: nat, closer: nat, id: nat)
    requires ConfigOk(c)
    ensures var s := Exec(c, steps);
      RevokeFinished(s, device, closer) ==>
        !DeviceOk(s, device) && (LiveFor(s, id, device) ==> exists p: nat :: Unconfirmed(s, p, device, id))
  {
    RunKeeps(c, steps);
    var s := Exec(c, steps);
    if RevokeFinished(s, device, closer) {
      UnconfirmedThere(c, s, device, closer, id);
    }
  }

  lemma UnconfirmedThere(c: Config, s: System, device: nat, closer: nat, id: nat)
    requires CoreInv(c, s) && RevokeFinished(s, device, closer)
    ensures !DeviceOk(s, device) && (LiveFor(s, id, device) ==> exists p: nat :: Unconfirmed(s, p, device, id))
  {
    assert RequestOk(s, closer);
    if LiveFor(s, id, device) {
      var p: nat :| OwnedBy(s, id, p);
      assert RequestOk(s, p) && !Swept(s, closer, p);
      assert Unconfirmed(s, p, device, id);
    }
  }

  ghost predicate IsThere(s: System, p: nat, pc: Pc) {
    p in s.requests && s.requests[p].pc == pc
  }

  ghost predicate HasGivenUp(s: System, p: nat, id: nat) {
    IsThere(s, p, GaveUp(id))
  }

  /** The step cancels request `p` between its failed re-check and the closing of relay `id`. */
  ghost predicate GivesUp(s: System, step: Step, p: nat, id: nat) {
    step == CancelRequest(p) && IsThere(s, p, Undo(id))
  }

  ghost predicate GivesUpAt(c: Config, steps: seq<Step>, k: nat, p: nat, id: nat) {
    k < |steps| && GivesUp(Exec(c, steps[..k]), steps[k], p, id)
  }

  // ---------- How requests end ----------

  predicate StatusIs(s: System, device: nat, status: DeviceStatus) {
    device in s.devices && s.devices[device] == status
  }

  /** The step reads the device again for request `p`, finds it active, and the answer is committed. */
  ghost predicate Confirms(s: System, step: Step, p: nat, id: nat) {
    step == RecheckDevice(p, true) && IsThere(s, p, Recheck(id)) && StatusIs(s, s.requests[p].device, Active)
  }

  /** An open or a revoke arrives while the device is not active, or a delete while it is not revoked. */
  ghost predicate IsTurnedAway(s: System, step: Step, p: nat) {
    && step.Arrive? && step.p == p && p !in s.requests
    && !StatusIs(s, step.device, if step.role == Delete then Revoked else Active)
  }

  /** The step ends request `p` without a relay. */
  ghost predicate Refuses(s: System, step: Step, p: nat) {
    || IsTurnedAway(s, step, p)
    || (p in s.requests
        && match s.requests[p].pc
           case Creating => step == NoPort(p) || step == CancelRequest(p)
           case Serving(id) => step == ServingFails(p) && id < |s.m.objects|
           case Undo(id) => step == UndoOpen(p) && s.managerLock.None? && id < |s.m.objects|
           case Asked => step == CancelRequest(p)
           case WantDeviceLock => step == CancelRequest(p)
           case WantDetach => step == CancelRequest(p)
           case Draining(_) => step == CancelRequest(p)
           case WantManagerLock => step == CancelRequest(p)
           case _ => false)
  }

  /** The step sees the last of the relays down that a revoke or a delete has detached. */
  ghost predicate Finishes(s: System, step: Step, p: nat) {
    step == Drained(p) && p in s.requests && s.requests[p].pc.Draining? && s.requests[p].pc.ids <= s.snapped && s.requests[p].role != Open
  }

  ghost predicate EndsBy(s: System, step: Step, p: nat, pc: Pc) {
    match pc
    case GaveUp(id) => GivesUp(s, step, p, id)
    case Opened(id) => Confirms(s, step, p, id)
    case Refused => Refuses(s, step, p)
    case Closed => Finishes(s, step, p)
    case _ => false
  }

  ghost predicate EndsAt(c: Config, steps: seq<Step>, k: nat, p: nat, pc: Pc) {
    k < |steps| && EndsBy(Exec(c, steps[..k]), steps[k], p, pc)
  }

  lemma EndedStepByStep(c: Config, s: System, step: Step, p: nat, pc: Pc)
    requires Consistent(s.m) && Ended(pc)
    ensures IsThere(Next(c, s, step), p, pc) <==> IsThere(s, p, pc) || EndsBy(s, step, p, pc)
  {
    if !Enabled(c, s, step) {
      EndedByNothing(c, s, step, p, pc);
    } else if MovesHandler(step) {
      EndedByNoHandler(c, s, step, p, pc);
    } else if MovesQuietly(step) {
      EndedQuietly(c, s, step, p, pc);
    } else if step.CancelRequest? {
      EndedByCancelling(c, s, step, p, pc);
    } else if step.Arrive? {
      EndedOnArrival(c, s, step, p, pc);
    } else if step.UndoOpen? || step.ServingFails? {
      EndedByClosing(c, s, step, p, pc);
    } else {
      EndedOtherwise(c, s, step, p, pc);
    }
  }

  lemma EndedByNothing(c: Config, s: System, step: Step, p: nat, pc: Pc)
    requires !Enabled(c, s, step)
    ensures IsThere(Next(c, s, step), p, pc) <==> IsThere(s, p, pc) || EndsBy(s, step, p, pc)
  {
    assert !EndsBy(s, step, p, pc);
  }

  lemma EndedByNoHandler(c: Config, s: System, step: Step, p: nat, pc: Pc)
    requires Consistent(s.m) && Enabled(c, s, step) && MovesHandler(step)
    ensures IsThere(Next(c, s, step), p, pc) <==> IsThere(s, p, pc) || EndsBy(s, step, p, pc)
  {
    HandlersOnly(c, s, step);
  }

  lemma EndedOnArrival(c: Config, s: System, step: Step, p: nat, pc: Pc)
    requires Consistent(s.m) && Enabled(c, s, step) && step.Arrive? && Ended(pc)
    ensures IsThere(Next(c, s, step), p, pc) <==> IsThere(s, p, pc) || EndsBy(s, step, p, pc)
  {
  }

  lemma EndedByClosing(c: Config, s: System, step: Step, p: nat, pc: Pc)
    requires Consistent(s.m) && Enabled(c, s, step) && (step.UndoOpen? || step.ServingFails?) && Ended(pc)
    ensures IsThere(Next(c, s, step), p, pc) <==> IsThere(s, p, pc) || EndsBy(s, step, p, pc)
  {
  }

  lemma EndedByCancelling(c: Config, s: System, step: Step, p: nat, pc: Pc)
    requires Consistent(s.m) && Enabled(c, s, step) && step.CancelRequest? && Ended(pc)
    ensures IsThere(Next(c, s, step), p, pc) <==> IsThere(s, p, pc) || EndsBy(s, step, p, pc)
  {
  }

  lemma EndedQuietly(c: Config, s: System, step: Step, p: nat, pc: Pc)
    requires Consistent(s.m) && Enabled(c, s, step) && MovesQuietly(step) && Ended(pc)
    ensures IsThere(Next(c, s, step), p, pc) <==> IsThere(s, p, pc) || EndsBy(s, step, p, pc)
  {
  }

  lemma EndedOtherwise(c: Config, s: System, step: Step, p: nat, pc: Pc)
    requires Consistent(s.m) && Enabled(c, s, step) && !MovesQuietly(step) && !MovesHandler(step) && Ended(pc)
    requires !step.CancelRequest? && !step.Arrive? && !step.UndoOpen? && !step.ServingFails?
    ensures IsThere(Next(c, s, step), p, pc) <==> IsThere(s, p, pc) || EndsBy(s, step, p, pc)
  {
    assert !EndsBy(s, step, p, pc);
    OtherRequestsStay(c, s, step, p, pc);
  }

  lemma OtherRequestsStay(c: Config, s: System, step: Step, p: nat, pc: Pc)
    requires Consistent(s.m) && Enabled(c, s, step) && !MovesQuietly(step) && !MovesHandler(step) && Ended(pc)
    requires !step.CancelRequest? && !step.Arrive? && !step.UndoOpen? && !step.ServingFails?
    ensures IsThere(Next(c, s, step), p, pc) <==> IsThere(s, p, pc)
  {
    if step.DetachDevice? || step.PublishRelay? {
      assert Next(c, s, step).requests == s.requests[step.p := Next(c, s, step).requests[step.p]];
    } else {
      assert Next(c, s, step).requests == s.requests;
    }
  }

  lemma EndsEarlier(c: Config, steps: seq<Step>, n: nat, k: nat, p: nat, pc: Pc)
    requires k < n <= |steps|
    ensures EndsAt(c, steps[..n], k, p, pc) <==> EndsAt(c, steps, k, p, pc)
  {
    assert steps[..n][..k] == steps[..k];
  }

  lemma LastStepEnds(c: Config, steps: seq<Step>, p: nat, pc: Pc)
    requires ConfigOk(c) && Ended(pc) && steps != []
    ensures IsThere(Exec(c, steps), p, pc) <==>
      IsThere(Exec(c, steps[..|steps|-1]), p, pc) || EndsAt(c, steps, |steps| - 1, p, pc)
  {
    ConsistentThere(c, steps[..|steps|-1]);
    EndedStepByStep(c, Exec(c, steps[..|steps|-1]), steps[|steps|-1], p, pc);
  }

  lemma OneMoreKeepsEnded(c: Config, steps: seq<Step>, j: nat, p: nat, pc: Pc)
    requires ConfigOk(c) && Ended(pc) && j < |steps| && (IsThere(Exec(c, steps[..j]), p, pc) || EndsAt(c, steps, j, p, pc))
    ensures IsThere(Exec(c, steps[..j+1]), p, pc)
  {
    AtNext(c, steps, j);
    ConsistentThere(c, steps[..j]);
    EndedStepByStep(c, Exec(c, steps[..j]), steps[j], p, pc);
  }

  lemma {:induction false} StaysEnded(c: Config, steps: seq<Step>, m: nat, p: nat, pc: Pc)
    requires ConfigOk(c) && Ended(pc) && m <= |steps| && IsThere(Exec(c, steps[..m]), p, pc)
    ensures IsThere(Exec(c, steps[..|steps|]), p, pc)
    decreases |steps| - m
  {
    if m != |steps| {
      OneMoreKeepsEnded(c, steps, m, p, pc);
      StaysEnded(c, steps, m + 1, p, pc);
    }
  }

  lemma EndedSince(c: Config, steps: seq<Step>, k: nat, p: nat, pc: Pc)
    requires ConfigOk(c) && Ended(pc) && EndsAt(c, steps, k, p, pc)
    ensures IsThere(Exec(c, steps), p, pc)
  {
    OneMoreKeepsEnded(c, steps, k, p, pc);
    StaysEnded(c, steps, k + 1, p, pc);
    assert steps[..|steps|] == steps;
  }

  lemma {:induction false} EndedByAStep(c: Config, steps: seq<Step>, p: nat, pc: Pc) returns (k: nat)
    requires ConfigOk(c) && Ended(pc) && IsThere(Exec(c, steps), p, pc)
    ensures EndsAt(c, steps, k, p, pc)
  {
    k := |steps| - 1;
    LastStepEnds(c, steps, p, pc);
    if !EndsAt(c, steps, k, p, pc) {
      var n := k;
      k := EndedByAStep(c, steps[..n], p, pc);
      EndsEarlier(c, steps, n, k, p, pc);
    }
  }

  /** Over a whole run: a request has ended in one of the four ways if and only if a step of the run
      ended it so, told from the state that the step found. */
  lemma EndedExactlyWhen(c: Config, steps: seq<Step>, p: nat, pc: Pc)
    requires ConfigOk(c) && Ended(pc)
    ensures IsThere(Exec(c, steps), p, pc) <==> exists k: nat :: EndsAt(c, steps, k, p, pc)
  {
    if IsThere(Exec(c, steps), p, pc) {
      var k := EndedByAStep(c, steps, p, pc);
    } else if k: nat :| EndsAt(c, steps, k, p, pc) {
      EndedSince(c, steps, k, p, pc);
    }
  }

  /** Over a whole run: a request gives up a relay if and only if such a step was taken. */
  lemma GivenUpExactlyWhen(c: Config, steps: seq<Step>, p: nat, id: nat)
    requires ConfigOk(c)
    ensures HasGivenUp(Exec(c, steps), p, id) <==> exists k: nat :: GivesUpAt(c, steps, k, p, id)
  {
    if HasGivenUp(Exec(c, steps), p, id) {
      var k := EndedByAStep(c, steps, p, GaveUp(id));
      assert GivesUpAt(c, steps, k, p, id);
    } else if k: nat :| GivesUpAt(c, steps, k, p, id) {
      assert EndsAt(c, steps, k, p, GaveUp(id));
      EndedSince(c, steps, k, p, GaveUp(id));
    }
  }

  /** The step closes relay `id` if it is still open: it closes the relay's device, undoes an open of
      an equal allocation, expires the relay, or shuts the Hub down. */
  ghost predicate Closes(c: Config, s: System, step: Step, id: nat) {
    && Enabled(c, s, step) && id < |s.m.objects|
    && match step
       case DetachDevice(p) => s.m.objects[id].allocation.device == s.requests[p].device
       case UndoOpen(p) => s.m.objects[id].allocation == s.m.objects[s.requests[p].pc.id].allocation
       case Expire(expired) => expired == id
       case CloseAll => true
       case _ => false
  }

  ghost predicate ClosesAt(c: Config, steps: seq<Step>, k: nat, id: nat) {
    k < |steps| && Closes(c, Exec(c, steps[..k]), steps[k], id)
  }

  /** A relay is detached by such a step and by no other. */
  lemma ClosedByStep(c: Config, s: System, step: Step, id: nat)
    requires Consistent(s.m) && Enabled(c, s, step)
    ensures IsClosing(Apply(c, s, step), id) ==> IsClosing(s, id) || Closes(c, s, step, id)
    ensures Closes(c, s, step, id) && id !in s.m.withdrawn ==> IsClosing(Apply(c, s, step), id)
  {
    if MovesHandler(step) {
      HandlersOnly(c, s, step);
    } else if step.DetachDevice? {
      LiveOfIsLive(s, s.requests[step.p].device);
    } else if step.CloseAll? && id < |s.m.objects| {
      AllLiveIsLive(s.m, id);
    }
  }

  lemma WithdrawnGrows(c: Config, s: System, step: Step)
    ensures s.m.withdrawn <= Next(c, s, step).m.withdrawn
  {
    if Consistent(s.m) && Enabled(c, s, step) && MovesHandler(step) {
      HandlersOnly(c, s, step);
    }
  }

  lemma {:induction false} StaysWithdrawn(c: Config, steps: seq<Step>, m: nat)
    requires m <= |steps|
    ensures Exec(c, steps[..m]).m.withdrawn <= Exec(c, steps[..|steps|]).m.withdrawn
    decreases |steps| - m
  {
    if m != |steps| {
      AtNext(c, steps, m);
      WithdrawnGrows(c, Exec(c, steps[..m]), steps[m]);
      StaysWithdrawn(c, steps, m + 1);
    }
  }

  lemma ClosedSince(c: Config, steps: seq<Step>, k: nat, id: nat)
    requires ConfigOk(c) && ClosesAt(c, steps, k, id) && id !in Exec(c, steps).m.withdrawn
    ensures IsClosing(Exec(c, steps), id)
  {
    assert steps[..|steps|] == steps;
    StaysWithdrawn(c, steps, k);
    ClosedAtNext(c, steps, k, id);
    NoNewForwarders(c, steps, k + 1, id, 0);
  }

  lemma ClosedAtNext(c: Config, steps: seq<Step>, k: nat, id: nat)
    requires ConfigOk(c) && ClosesAt(c, steps, k, id) && id !in Exec(c, steps[..k]).m.withdrawn
    ensures IsClosing(Exec(c, steps[..k+1]), id)
  {
    AtNext(c, steps, k);
    ConsistentThere(c, steps[..k]);
    ClosedByStep(c, Exec(c, steps[..k]), steps[k], id);
  }

  lemma LastStepCloses(c: Config, steps: seq<Step>, id: nat)
    requires ConfigOk(c) && steps != [] && IsClosing(Exec(c, steps), id)
    ensures IsClosing(Exec(c, steps[..|steps|-1]), id) || ClosesAt(c, steps, |steps| - 1, id)
  {
    ConsistentThere(c, steps[..|steps|-1]);
    var before := Exec(c, steps[..|steps|-1]);
    if Enabled(c, before, steps[|steps|-1]) {
      ClosedByStep(c, before, steps[|steps|-1], id);
    }
  }

  lemma ClosesEarlier(c: Config, steps: seq<Step>, n: nat, k: nat, id: nat)
    requires k < n <= |steps|
    ensures ClosesAt(c, steps[..n], k, id) <==> ClosesAt(c, steps, k, id)
  {
    assert steps[..n][..k] == steps[..k];
  }

  lemma {:induction false} ClosedByAStep(c: Config, steps: seq<Step>, id: nat) returns (k: nat)
    requires ConfigOk(c) && steps != [] && IsClosing(Exec(c, steps), id)
    ensures ClosesAt(c, steps, k, id)
  {
    k := |steps| - 1;
    LastStepCloses(c, steps, id);
    if !ClosesAt(c, steps, k, id) {
      var n := k;
      NothingClosedAtFirst(c, steps[..n], id);
      k := ClosedByAStep(c, steps[..n], id);
      ClosesEarlier(c, steps, n, k, id);
    }
  }

  lemma NothingClosedAtFirst(c: Config, steps: seq<Step>, id: nat)
    requires IsClosing(Exec(c, steps), id)
    ensures steps != []
  {
  }

  /** Relay `id` was published for the device and given up by a step of the run, and no step of the
      run closed it. */
  ghost predicate LeftBehind(c: Config, steps: seq<Step>, device: nat, id: nat) {
    && id < |Exec(c, steps).m.objects| && Exec(c, steps).m.objects[id].allocation.device == device
    && (exists k: nat, p: nat :: GivesUpAt(c, steps, k, p, id))
    && !exists k: nat :: ClosesAt(c, steps, k, id)
  }

  /** Publish-then-recheck meets commit-then-close: once every open request of the device has ended
      and some revoke or delete of it has finished, a relay of the device is live if and only if
      some step of the run cancelled its request between the failed re-check and the closing, and
      no step closed it. A run without such a cancellation leaves the device no live relay. */
  lemma RevokedDeviceHasNoLiveRelay(c: Config, steps: seq<Step>, device: nat, closer: nat)
    requires ConfigOk(c)
    ensures var s := Exec(c, steps);
      RevokeFinished(s, device, closer) && OpensEnded(s, device) ==>
        && Consistent(s.m)
        && (forall id: nat :: LiveFor(s, id, device) <==> LeftBehind(c, steps, device, id))
        && ((forall k: nat, p: nat, id: nat :: !GivesUpAt(c, steps, k, p, id)) ==> LiveOf(s.m, device) == {})
  {
    RunKeeps(c, steps);
    var s := Exec(c, steps);
    if RevokeFinished(s, device, closer) && OpensEnded(s, device) {
      forall id: nat ensures LiveFor(s, id, device) <==> LeftBehind(c, steps, device, id) {
        if LiveFor(s, id, device) {
          LiveIsLeftBehind(c, steps, device, closer, id);
        } else if LeftBehind(c, steps, device, id) {
          LeftBehindIsLive(c, steps, device, id);
        }
      }
      LiveOfIsLive(s, device);
    }
  }

  lemma LiveIsLeftBehind(c: Config, steps: seq<Step>, device: nat, closer: nat, id: nat)
    requires ConfigOk(c)
    requires var s := Exec(c, steps); RevokeFinished(s, device, closer) && OpensEnded(s, device) && LiveFor(s, id, device)
    ensures LeftBehind(c, steps, device, id)
  {
    RunKeeps(c, steps);
    var s := Exec(c, steps);
    UnconfirmedThere(c, s, device, closer, id);
    var p: nat :| Unconfirmed(s, p, device, id);
    assert HasGivenUp(s, p, id);
    GivenUpExactlyWhen(c, steps, p, id);
    if k: nat :| ClosesAt(c, steps, k, id) {
      ClosedSince(c, steps, k, id);
    }
  }

  lemma LeftBehindIsLive(c: Config, steps: seq<Step>, device: nat, id: nat)
    requires ConfigOk(c) && LeftBehind(c, steps, device, id)
    ensures LiveFor(Exec(c, steps), id, device)
  {
    RunKeeps(c, steps);
    var s := Exec(c, steps);
    var k: nat, p: nat :| GivesUpAt(c, steps, k, p, id);
    GivenUpExactlyWhen(c, steps, p, id);
    assert NamedBy(s, p, id);
    if IsClosing(s, id) {
      NothingClosedAtFirst(c, steps, id);
      var j := ClosedByAStep(c, steps, id);
    }
  }

  // ---------- Devices that are gone ----------

  /** Revoked, or deleted. */
  predicate Gone(s: System, device: nat) {
    device in s.devices && s.devices[device] != Active
  }

  /** Request `p` has committed a revoke or delete of the device, and closes its relays or has closed them. */
  ghost predicate ClosesDevice(s: System, p: nat, device: nat) {
    && p in s.requests && s.requests[p].role != Open && s.requests[p].device == device
    && (s.requests[p].pc.WantDeviceLock? || s.requests[p].pc.WantDetach? || s.requests[p].pc.Draining? || s.requests[p].pc.Closed?)
  }

  /** The step leaves nobody to close the relays of a device that is gone: the device goes with its
      company, or the request that was about to close them is cancelled. */
  ghost predicate LeavesUnclosed(c: Config, s: System, step: Step, device: nat) {
    && Enabled(c, s, step)
    && (step == DeleteWithCompany(device) || (step.CancelRequest? && ClosesDevice(s, step.p, device)))
  }

  ghost predicate LeavesUnclosedAt(c: Config, steps: seq<Step>, k: nat, device: nat) {
    k < |steps| && LeavesUnclosed(c, Exec(c, steps[..k]), steps[k], device)
  }

  lemma CloserGoesOn(c: Config, s: System, step: Step, p: nat, device: nat)
    requires Consistent(s.m) && Enabled(c, s, step) && ClosesDevice(s, p, device) && !LeavesUnclosed(c, s, step, device)
    ensures ClosesDevice(Apply(c, s, step), p, device)
  {
    if MovesHandler(step) {
      HandlersOnly(c, s, step);
    } else if MovesQuietly(step) {
      CloserGoesOnQuietly(c, s, step, p, device);
    } else {
      CloserIsLetAlone(c, s, step, p, device);
    }
  }

  lemma CloserGoesOnQuietly(c: Config, s: System, step: Step, p: nat, device: nat)
    requires Consistent(s.m) && Enabled(c, s, step) && MovesQuietly(step) && ClosesDevice(s, p, device)
    ensures ClosesDevice(Apply(c, s, step), p, device)
  {
  }

  lemma CloserIsLetAlone(c: Config, s: System, step: Step, p: nat, device: nat)
    requires Consistent(s.m) && Enabled(c, s, step) && !MovesQuietly(step) && !MovesHandler(step)
    requires ClosesDevice(s, p, device) && !LeavesUnclosed(c, s, step, device)
    ensures ClosesDevice(Apply(c, s, step), p, device)
  {
  }

  lemma GoneByStep(c: Config, s: System, step: Step, device: nat)
    requires Consistent(s.m) && Enabled(c, s, step) && Gone(Apply(c, s, step), device) && !Gone(s, device)
    requires step.CommitRevoke? ==> s.requests[step.p].role != Open
    ensures LeavesUnclosed(c, s, step, device) || exists p: nat :: ClosesDevice(Apply(c, s, step), p, device)
  {
    if MovesHandler(step) {
      HandlersOnly(c, s, step);
    } else if step.CommitRevoke? {
      assert ClosesDevice(Apply(c, s, step), step.p, device);
    }
  }

  ghost predicate Unclosed(s: System, device: nat) {
    Gone(s, device) && forall p: nat :: !ClosesDevice(s, p, device)
  }

  lemma UnclosedByStep(c: Config, s: System, step: Step, device: nat)
    requires Consistent(s.m) && RequestInv(s) && Enabled(c, s, step)
    requires !Unclosed(s, device) && !LeavesUnclosed(c, s, step, device)
    ensures !Unclosed(Apply(c, s, step), device)
  {
    if p: nat :| ClosesDevice(s, p, device) {
      CloserGoesOn(c, s, step, p, device);
    } else if Gone(Apply(c, s, step), device) {
      assert step.CommitRevoke? ==> RequestOk(s, step.p);
      GoneByStep(c, s, step, device);
    }
  }

  lemma OneMoreUnclosed(c: Config, steps: seq<Step>, j: nat, device: nat)
    requires ConfigOk(c) && j < |steps| && !LeavesUnclosedAt(c, steps, j, device) && !Unclosed(Exec(c, steps[..j]), device)
    ensures !Unclosed(Exec(c, steps[..j+1]), device)
  {
    AtNext(c, steps, j);
    RunKeeps(c, steps[..j]);
    var s := Exec(c, steps[..j]);
    if Enabled(c, s, steps[j]) {
      UnclosedByStep(c, s, steps[j], device);
    }
  }

  /** As long as no step leaves a device unclosed, none is. */
  lemma {:induction false} NeverUnclosed(c: Config, steps: seq<Step>, m: nat, device: nat)
    requires ConfigOk(c) && m <= |steps| && !Unclosed(Exec(c, steps[..m]), device)
    requires forall k: nat :: !LeavesUnclosedAt(c, steps, k, device)
    ensures !Unclosed(Exec(c, steps[..|steps|]), device)
    decreases |steps| - m
  {
    if m != |steps| {
      OneMoreUnclosed(c, steps, m, device);
      NeverUnclosed(c, steps, m + 1, device);
    }
  }

  /** A device that is revoked or gone from the database, however that came about: when all its requests
      have ended, a relay of it is live only if it was left behind, unless some step of the run left
      nobody to close its relays. */
  lemma GoneDeviceHasNoLiveRelay(c: Config, steps: seq<Step>, device: nat, id: nat)
    requires ConfigOk(c)
    ensures var s := Exec(c, steps);
      Gone(s, device) && RequestsEnded(s, device) && (forall k: nat :: !LeavesUnclosedAt(c, steps, k, device)) ==>
        (LiveFor(s, id, device) <==> LeftBehind(c, steps, device, id))
  {
    var s := Exec(c, steps);
    if Gone(s, device) && RequestsEnded(s, device) && forall k: nat :: !LeavesUnclosedAt(c, steps, k, device) {
      assert steps[..0] == [] && steps[..|steps|] == steps;
      NeverUnclosed(c, steps, 0, device);
      var closer: nat :| ClosesDevice(s, closer, device);
      assert RevokeFinished(s, device, closer) && OpensEnded(s, device);
      RevokedDeviceHasNoLiveRelay(c, steps, device, closer);
    }
  }

  /** Deleting a company closes nothing: after any run, a device that goes with its company keeps the
      relays it had, and every handler of them. */
  lemma CompanyDeletionClosesNothing(c: Config, steps: seq<Step>, device: nat)
    requires ConfigOk(c)
    ensures var s, s' := Exec(c, steps), Exec(c, steps + [DeleteWithCompany(device)]);
      device in s.devices ==> Gone(s', device) && s'.m == s.m && s'.handlers == s.handlers && s'.requests == s.requests
  {
    ConsistentThere(c, steps);
    Extend(c, steps, DeleteWithCompany(device));
  }

  const C := Config(20000, 30000, 4)
  const A := Allocation(1, "hub", 20000, 300)

  /** No relay was ever published; device 1 is revoked; request 0 opens it and request 9 revokes it. */
  function NoRelays(deviceLocks: map<nat, nat>, managerLock: Option<nat>, opening: Pc, revoking: Pc): System {
    System(EMPTY, multiset{}, {}, {}, {}, map[], map[1 := Revoked], deviceLocks, managerLock,
           map[0 := Request(Open, 1, opening), 9 := Request(Revoke, 1, revoking)])
  }

  /** A run that ends in `s`, and one more step. */
  lemma Go(steps: seq<Step>, s: System, step: Step, s': System) returns (more: seq<Step>)
    requires Exec(C, steps) == s && Next(C, s, step) == s'
    ensures more == steps + [step] && Exec(C, more) == s'
  {
    more := steps + [step];
    Extend(C, steps, step);
  }

  /** Device 1 is revoked while a request to open it waits for the device lock. */
  const ASKED := [Enroll(1)] + [Arrive(0, Open, 1)] + [Arrive(9, Revoke, 1)] + [CommitRevoke(9)]

  lemma AskedThere()
    ensures Exec(C, ASKED) == NoRelays(map[], None, WantDeviceLock, WantDeviceLock)
  {
    ArrivedThere();
    RevokeAsked([Enroll(1)] + [Arrive(0, Open, 1)]);
  }

  lemma RevokeAsked(steps: seq<Step>)
    requires Exec(C, steps) ==
      System(EMPTY, multiset{}, {}, {}, {}, map[], map[1 := Active], map[], None, map[0 := Request(Open, 1, WantDeviceLock)])
    ensures Exec(C, steps + [Arrive(9, Revoke, 1)] + [CommitRevoke(9)]) == NoRelays(map[], None, WantDeviceLock, WantDeviceLock)
  {
    Extend(C, steps, Arrive(9, Revoke, 1));
    assert Exec(C, steps + [Arrive(9, Revoke, 1)]).requests == map[0 := Request(Open, 1, WantDeviceLock), 9 := Request(Revoke, 1, Asked)];
    Extend(C, steps + [Arrive(9, Revoke, 1)], CommitRevoke(9));
  }

  lemma ArrivedThere()
    ensures Exec(C, [Enroll(1)] + [Arrive(0, Open, 1)]) ==
      System(EMPTY, multiset{}, {}, {}, {}, map[], map[1 := Active], map[], None, map[0 := Request(Open, 1, WantDeviceLock)])
  {
    Extend(C, [], Enroll(1));
    Extend(C, [Enroll(1)], Arrive(0, Open, 1));
  }

  lemma RevokeLocks()
    ensures Next(C, NoRelays(map[], None, WantDeviceLock, WantDeviceLock), LockDevice(9)) == NoRelays(map[1 := 9], None, WantDeviceLock, WantDetach)
  {
  }

  lemma OpenLocks()
    ensures Next(C, NoRelays(map[], None, WantDeviceLock, Closed), LockDevice(0)) == NoRelays(map[1 := 0], None, WantDetach, Closed)
  {
  }

  lemma OpenLocksManager()
    ensures Next(C, NoRelays(map[1 := 0], None, WantManagerLock, Closed), LockManager(0)) == NoRelays(map[1 := 0], Some(0), Creating, Closed)
  {
  }

  /** With no relay to close, closing a device's relays passes through `Draining` at once. */
  lemma NothingToDetach(s: System, p: nat)
    requires s.m == EMPTY && p in s.requests && s.requests[p].pc.WantDetach? && s.managerLock.None?
    ensures Next(C, s, DetachDevice(p)) == SetPc(s, p, Draining({}))
    ensures Next(C, SetPc(s, p, Draining({})), Drained(p)) ==
      if s.requests[p].role == Open then SetPc(s, p, WantManagerLock) else Leave(SetPc(s, p, Draining({})), p, Closed)
  {
    DetachNone(s.m);
    assert LiveOf(s.m, s.requests[p].device) == {};
    assert s.detachLog + multiset({}) == s.detachLog;
  }

  lemma RevokeEmpties()
    ensures Next(C, NoRelays(map[1 := 9], None, WantDeviceLock, WantDetach), DetachDevice(9)) == NoRelays(map[1 := 9], None, WantDeviceLock, Draining({}))
    ensures Next(C, NoRelays(map[1 := 9], None, WantDeviceLock, Draining({})), Drained(9)) == NoRelays(map[], None, WantDeviceLock, Closed)
  {
    var locked := NoRelays(map[1 := 9], None, WantDeviceLock, WantDetach);
    NothingToDetach(locked, 9);
    assert SetPc(locked, 9, Draining({})) == NoRelays(map[1 := 9], None, WantDeviceLock, Draining({}));
  }

  lemma OpenEmpties()
    ensures Next(C, NoRelays(map[1 := 0], None, WantDetach, Closed), DetachDevice(0)) == NoRelays(map[1 := 0], None, Draining({}), Closed)
    ensures Next(C, NoRelays(map[1 := 0], None, Draining({}), Closed), Drained(0)) == NoRelays(map[1 := 0], None, WantManagerLock, Closed)
  {
    var locked := NoRelays(map[1 := 0], None, WantDetach, Closed);
    NothingToDetach(locked, 0);
    assert SetPc(locked, 0, Draining({})) == NoRelays(map[1 := 0], None, Draining({}), Closed);
  }

  /** The revocation finds nothing to close and finishes. */
  lemma RevokeGoesOn(steps: seq<Step>) returns (more: seq<Step>)
    requires Exec(C, steps) == NoRelays(map[], None, WantDeviceLock, WantDeviceLock)
    ensures Exec(C, more) == NoRelays(map[], None, WantDeviceLock, Closed)
  {
    RevokeLocks();
    RevokeEmpties();
    more := Go(steps, NoRelays(map[], None, WantDeviceLock, WantDeviceLock), LockDevice(9), NoRelays(map[1 := 9], None, WantDeviceLock, WantDetach));
    more := Go(more, NoRelays(map[1 := 9], None, WantDeviceLock, WantDetach), DetachDevice(9), NoRelays(map[1 := 9], None, WantDeviceLock, Draining({})));
    more := Go(more, NoRelays(map[1 := 9], None, WantDeviceLock, Draining({})), Drained(9), NoRelays(map[], None, WantDeviceLock, Closed));
  }

  /** Then the open request gets its turn, */
  lemma OpenGoesOn(steps: seq<Step>) returns (more: seq<Step>)
    requires Exec(C, steps) == NoRelays(map[], None, WantDeviceLock, Closed)
    ensures Exec(C, more) == NoRelays(map[1 := 0], None, WantManagerLock, Closed)
  {
    OpenLocks();
    OpenEmpties();
    more := Go(steps, NoRelays(map[], None, WantDeviceLock, Closed), LockDevice(0), NoRelays(map[1 := 0], None, WantDetach, Closed));
    more := Go(more, NoRelays(map[1 := 0], None, WantDetach, Closed), DetachDevice(0), NoRelays(map[1 := 0], None, Draining({}), Closed));
    more := Go(more, NoRelays(map[1 := 0], None, Draining({}), Closed), Drained(0), NoRelays(map[1 := 0], None, WantManagerLock, Closed));
  }

  function OneRelay(deviceLocks: map<nat, nat>, managerLock: Option<nat>, opening: Pc): System {
    NoRelays(deviceLocks, managerLock, opening, Closed).(m := Publish(EMPTY, A))
  }

  lemma ServesThere(m: Manager)
    requires Consistent(m)
    ensures Next(C, NoRelays(map[1 := 0], Some(0), Serving(0), Closed).(m := m), ServingStarted(0)) == NoRelays(map[], None, Recheck(0), Closed).(m := m)
  {
  }

  lemma RecheckFailsThere(m: Manager)
    requires Consistent(m)
    ensures Next(C, NoRelays(map[], None, Recheck(0), Closed).(m := m), RecheckDevice(0, true)) == NoRelays(map[], None, Undo(0), Closed).(m := m)
  {
  }

  lemma GivesUpThere(m: Manager)
    requires Consistent(m)
    ensures Next(C, NoRelays(map[], None, Undo(0), Closed).(m := m), CancelRequest(0)) == NoRelays(map[], None, GaveUp(0), Closed).(m := m)
  {
  }

  lemma PublishesThere()
    ensures Next(C, NoRelays(map[1 := 0], Some(0), Creating, Closed), PublishRelay(0, A)) == OneRelay(map[1 := 0], Some(0), Serving(0))
  {
  }

  /** publishes its relay, finds the device gone, and is cancelled before it can close again. */
  lemma OpenGivesUp(steps: seq<Step>) returns (more: seq<Step>)
    requires Exec(C, steps) == NoRelays(map[1 := 0], None, WantManagerLock, Closed)
    ensures Exec(C, more) == OneRelay(map[], None, GaveUp(0))
  {
    OpenLocksManager();
    PublishesThere();
    PublishConsistent(EMPTY, A);
    ServesThere(Publish(EMPTY, A));
    RecheckFailsThere(Publish(EMPTY, A));
    GivesUpThere(Publish(EMPTY, A));
    more := Go(steps, NoRelays(map[1 := 0], None, WantManagerLock, Closed), LockManager(0), NoRelays(map[1 := 0], Some(0), Creating, Closed));
    more := Go(more, NoRelays(map[1 := 0], Some(0), Creating, Closed), PublishRelay(0, A), OneRelay(map[1 := 0], Some(0), Serving(0)));
    more := Go(more, OneRelay(map[1 := 0], Some(0), Serving(0)), ServingStarted(0), OneRelay(map[], None, Recheck(0)));
    more := Go(more, OneRelay(map[], None, Recheck(0)), RecheckDevice(0, true), OneRelay(map[], None, Undo(0)));
    more := Go(more, OneRelay(map[], None, Undo(0)), CancelRequest(0), OneRelay(map[], None, GaveUp(0)));
  }

  ghost predicate LeftLive(s: System, device: nat, closer: nat, id: nat) {
    RevokeFinished(s, device, closer) && RequestsEnded(s, device) && LiveFor(s, id, device)
  }

  /** After some run the revocation of a device has finished, all its requests have ended, and its
      relay is live: the request that published it was cancelled on its way to closing it. */
  lemma ACancelledUndoLeavesItsRelay()
    ensures exists steps: seq<Step> :: LeftLive(Exec(C, steps), 1, 9, 0)
  {
    AskedThere();
    var steps := RevokeGoesOn(ASKED);
    steps := OpenGoesOn(steps);
    steps := OpenGivesUp(steps);
    LiveAtTheEnd(Exec(C, steps));
  }

  lemma LiveAtTheEnd(s: System)
    requires s == OneRelay(map[], None, GaveUp(0))
    ensures LeftLive(s, 1, 9, 0)
  {
  }

  // ---------- Handlers of a revoked device ----------

  /** The relays this step leaves without a shutdown of their own, or with one that has yet to begin. */
  ghost function Abandons(c: Config, s: System, step: Step): set<nat>
  {
    if !Consistent(s.m) || !Enabled(c, s, step) then {} else
      match step
      case ServingFails(p) => {s.requests[p].pc.id}
      case CancelRequest(p) =>
        (match s.requests[p].pc
         case Draining(ids) => ids - s.snapped
         case Undo(id) => {id}
         case _ => {})
      case CloseAll => AllLive(s.m)
      case _ => {}
  }

  ghost predicate AbandonedAt(c: Config, steps: seq<Step>, k: nat, id: nat) {
    k < |steps| && id in Abandons(c, Exec(c, steps[..k]), steps[k])
  }

  ghost predicate Abandoned(s: System, id: nat) {
    id in s.m.withdrawn || id in s.orphans || id in s.byShutdown || exists p: nat :: HasGivenUp(s, p, id)
  }

  lemma NotedByAStep(c: Config, s: System, step: Step)
    requires Consistent(s.m) && Enabled(c, s, step)
    ensures var s' := Apply(c, s, step);
      s'.m.withdrawn + s'.orphans + s'.byShutdown <= s.m.withdrawn + s.orphans + s.byShutdown + Abandons(c, s, step)
  {
    if MovesHandler(step) {
      HandlersOnly(c, s, step);
    }
  }

  lemma AbandonedStepByStep(c: Config, s: System, step: Step, id: nat)
    requires Abandoned(Next(c, s, step), id)
    ensures Abandoned(s, id) || id in Abandons(c, s, step)
  {
    if Consistent(s.m) && Enabled(c, s, step) {
      NotedByAStep(c, s, step);
      if p: nat :| HasGivenUp(Next(c, s, step), p, id) {
        EndedStepByStep(c, s, step, p, GaveUp(id));
        assert HasGivenUp(s, p, id) || GivesUp(s, step, p, id);
      }
    }
  }

  lemma {:induction false} AbandonedByAStep(c: Config, steps: seq<Step>, id: nat)
    requires Abandoned(Exec(c, steps), id)
    ensures exists k: nat :: AbandonedAt(c, steps, k, id)
  {
    if steps != [] {
      var n := |steps| - 1;
      AbandonedStepByStep(c, Exec(c, steps[..n]), steps[n], id);
      if id in Abandons(c, Exec(c, steps[..n]), steps[n]) {
        assert AbandonedAt(c, steps, n, id);
      } else {
        AbandonedByAStep(c, steps[..n], id);
        var k: nat :| AbandonedAt(c, steps[..n], k, id);
        assert steps[..n][..k] == steps[..k];
        assert AbandonedAt(c, steps, k, id);
      }
    }
  }

  ghost predicate ForwardsFor(s: System, t: nat, device: nat) {
    && t in s.handlers && s.handlers[t].pc.Forwarding?
    && s.handlers[t].relay < |s.m.objects| && s.m.objects[s.handlers[t].relay].allocation.device == device
  }

  /** Revocation ends forwarding: once some revoke or delete of the device has finished and all
      its requests have ended, a handler that is still forwarding for the device was cancelled if
      and only if the shutdown of its relay has begun; and the shutdown has begun unless some step of
      the run abandoned that relay: its server failed to start, its request was cancelled before
      the shutdown began, or the Hub was shutting down. */
  lemma RevocationEndsForwarding(c: Config, steps: seq<Step>, device: nat, closer: nat, t: nat)
    requires ConfigOk(c)
    ensures var s := Exec(c, steps);
      RevokeFinished(s, device, closer) && RequestsEnded(s, device) && ForwardsFor(s, t, device) ==>
        var id := s.handlers[t].relay;
        && (s.handlers[t].cancelled <==> id in s.snapped)
        && (id in s.snapped || exists k: nat :: AbandonedAt(c, steps, k, id))
  {
    RunKeeps(c, steps);
    var s := Exec(c, steps);
    if RevokeFinished(s, device, closer) && RequestsEnded(s, device) && ForwardsFor(s, t, device) {
      var id := s.handlers[t].relay;
      assert HandlerOk(s, t);
      if id !in s.snapped {
        EndedOrAbandoned(c, s, device, closer, id);
        AbandonedByAStep(c, steps, id);
      }
    }
  }

  lemma EndedOrAbandoned(c: Config, s: System, device: nat, closer: nat, id: nat)
    requires Inv(c, s) && RevokeFinished(s, device, closer) && RequestsEnded(s, device)
    requires id < |s.m.objects| && s.m.objects[id].allocation.device == device && id !in s.snapped
    ensures Abandoned(s, id)
  {
    if s.m.objects[id].closing {
      assert GoingDown(s, id);
      forall p: nat ensures !Drains(s, p, id) {
        assert p in s.requests && s.requests[p].device == device ==> Ended(s.requests[p].pc);
      }
    } else if id !in s.m.withdrawn {
      UnconfirmedThere(c, s, device, closer, id);
      var p: nat :| Unconfirmed(s, p, device, id);
      assert HasGivenUp(s, p, id);
    }
  }

  lemma ForwardingStartsLive(c: Config, s: System, step: Step, t: nat)
    requires Consistent(s.m) && HandlerInv(c, s) && Enabled(c, s, step)
    requires var s' := Apply(c, s, step); t in s'.handlers && s'.handlers[t].pc.Forwarding?
    ensures HasHandler(s, t) && Apply(c, s, step).handlers[t].relay == s.handlers[t].relay
    ensures s.handlers[t].pc.Forwarding? || !s.m.objects[s.handlers[t].relay].closing
  {
    if !MovesHandler(step) {
      OthersKeepHandlers(c, s, step);
    }
  }

  // ---------- Every relay, every handler ----------

  /** Relays are created only under the device lock, after that device's relays were detached. */
  lemma AtMostOneLiveRelayPerDevice(c: Config, steps: seq<Step>, device: nat)
    requires ConfigOk(c)
    ensures Consistent(Exec(c, steps).m) && |LiveOf(Exec(c, steps).m, device)| <= 1
  {
    RunKeeps(c, steps);
    var s := Exec(c, steps);
    LiveOfIsLive(s, device);
    var ids := LiveOf(s.m, device);
    if ids != {} {
      var i :| i in ids;
      forall j | j in ids ensures j == i {
        assert LiveFor(s, i, device) && LiveFor(s, j, device);
      }
      assert ids == {i};
    }
  }

  function UpTo(n: nat): (ids: set<nat>)
    ensures |ids| == n && forall i: nat :: i in ids <==> i < n
  {
    if n == 0 then {} else UpTo(n - 1) + {n - 1}
  }

  lemma ThreeParts(n: nat, a: set<nat>, b: set<nat>, d: set<nat>)
    requires forall id: nat :: id < n <==> id in a || id in b || id in d
    requires a !! b !! d
    ensures n == |a| + |b| + |d|
  {
    assert UpTo(n) == a + b + d;
  }

  /** Every relay ever published is in the dictionary, or was detached, or was withdrawn. */
  ghost predicate CreatedIsAccountedFor(c: Config, s: System) {
    && (forall port :: port in s.m.relays ==> c.portMin <= port <= c.portMax)
    && (forall id: nat :: s.detachLog[id] == if id < |s.m.objects| && !Live(s.m, id) && id !in s.m.withdrawn then 1 else 0)
    && |s.m.objects| == |AllLive(s.m)| + |s.detachLog| + |s.m.withdrawn|
  }

  lemma CreatedIsAccountedForHolds(c: Config, s: System)
    requires ManagerInv(c, s)
    ensures CreatedIsAccountedFor(c, s)
  {
    var closed := set id: nat | id < |s.m.objects| && s.m.objects[id].closing;
    assert s.detachLog == multiset(closed);
    LiveAndClosedAreAll(s.m, closed);
  }

  lemma AllLiveIsLive(m: Manager, id: nat)
    requires Consistent(m)
    ensures id in AllLive(m) <==> Live(m, id)
  {
    if Live(m, id) {
      assert m.objects[id].allocation.port in m.relays;
    }
  }

  lemma LiveAndClosedAreAll(m: Manager, closed: set<nat>)
    requires Consistent(m) && forall id: nat :: id in closed <==> id < |m.objects| && m.objects[id].closing
    ensures |m.objects| == |AllLive(m)| + |closed| + |m.withdrawn|
  {
    var live := AllLive(m);
    forall id: nat ensures id in live <==> Live(m, id) {
      AllLiveIsLive(m, id);
    }
    ThreeParts(|m.objects|, live, closed, m.withdrawn);
  }

  /** Every relay ever published is either in the dictionary, once, under its own port and inside
      the port range, or has been detached exactly once, or never began to serve. */
  lemma EachRelayIsLiveOrDetachedOnce(c: Config, steps: seq<Step>)
    requires ConfigOk(c)
    ensures Consistent(Exec(c, steps).m) && CreatedIsAccountedFor(c, Exec(c, steps))
  {
    RunKeeps(c, steps);
    CreatedIsAccountedForHolds(c, Exec(c, steps));
  }

  /** An expiry task removes its own relay or nothing, even when its port was reused. */
  lemma ExpiryRemovesOnlyItsOwnRelay(c: Config, steps: seq<Step>, id: nat)
    requires ConfigOk(c)
    ensures var s := Exec(c, steps); var s' := Next(c, s, Expire(id));
      && (Enabled(c, s, Expire(id)) ==> !Live(s'.m, id))
      && (forall j: nat :: j != id ==> (Live(s'.m, j) <==> Live(s.m, j)))
      && (forall port :: port in s.m.relays && s.m.relays[port] != id ==> port in s'.m.relays && s'.m.relays[port] == s.m.relays[port])
      && (!Live(s.m, id) ==> s'.m == s.m && s'.detachLog == s.detachLog)
  {
    RunKeeps(c, steps);
    var s := Exec(c, steps);
    if Enabled(c, s, Expire(id)) {
      ExpiryIsItsOwn(c, s, id);
    }
  }

  lemma ExpiryIsItsOwn(c: Config, s: System, id: nat)
    requires Inv(c, s) && Enabled(c, s, Expire(id))
    ensures var s' := Apply(c, s, Expire(id));
      && !Live(s'.m, id)
      && (forall j: nat :: j != id ==> (Live(s'.m, j) <==> Live(s.m, j)))
      && (forall port :: port in s.m.relays && s.m.relays[port] != id ==> port in s'.m.relays && s'.m.relays[port] == s.m.relays[port])
      && (!Live(s.m, id) ==> s'.m == s.m && s'.detachLog == s.detachLog)
  {
    var ids := MatchIdentity(s.m, id);
    assert Live(s.m, id) <==> ids == {id};
    CloseNowKeeps(c, s, ids);
    if !Live(s.m, id) {
      DetachNone(s.m);
    }
  }

  ghost predicate CountsExactly(s: System, id: nat)
    requires id < |s.m.objects|
  {
    var r := s.m.objects[id];
    r.active == |InFlight(s, id)| && r.tasks == set t | t in s.handlers && s.handlers[t].relay == id && !s.handlers[t].pc.Gone?
  }

  lemma CountsExactlyHolds(c: Config, s: System, id: nat)
    requires HandlerInv(c, s) && Live(s.m, id)
    ensures CountsExactly(s, id)
  {
    assert CountOk(c, s, id);
    forall t | t in s.handlers && s.handlers[t].relay == id ensures t in s.m.objects[id].tasks <==> !s.handlers[t].pc.Gone? {
      assert HandlerOk(s, t);
    }
  }

  /** On a live relay the counter is the number of handlers past admission and `tasks` is
      the handlers still running; on any relay the counter stays within the cap. */
  lemma LiveRelayCountsItsHandlers(c: Config, steps: seq<Step>, id: nat)
    requires ConfigOk(c)
    ensures var s := Exec(c, steps);
      id < |s.m.objects| ==>
        |InFlight(s, id)| <= s.m.objects[id].active <= c.maxConnections && (Live(s.m, id) ==> CountsExactly(s, id))
  {
    RunKeeps(c, steps);
    var s := Exec(c, steps);
    assert id < |s.m.objects| ==> CountOk(c, s, id);
    if Live(s.m, id) {
      CountsExactlyHolds(c, s, id);
    }
  }

  /** The shutdown snapshot misses no forwarding handler, and afterwards every handler that is
      still forwarding has been cancelled; nobody is cancelled on a live relay. */
  lemma ShutdownReachesEveryForwarder(c: Config, steps: seq<Step>, t: nat)
    requires ConfigOk(c)
    ensures var s := Exec(c, steps);
      t in s.handlers && s.handlers[t].pc.Forwarding? ==>
        var id := s.handlers[t].relay;
        && id < |s.m.objects|
        && t in s.m.objects[id].tasks && Downstream(t) in s.m.objects[id].writers && Upstream(t) in s.m.objects[id].writers
        && (s.handlers[t].cancelled <==> id in s.snapped)
        && (s.handlers[t].cancelled ==> !Live(s.m, id))
  {
    RunKeeps(c, steps);
    var s := Exec(c, steps);
    assert t in s.handlers ==> HandlerOk(s, t);
  }

  ghost predicate ForwardsOn(s: System, t: nat, id: nat) {
    t in s.handlers && s.handlers[t].pc.Forwarding? && s.handlers[t].relay == id
  }

  ghost predicate IsClosing(s: System, id: nat) {
    id < |s.m.objects| && s.m.objects[id].closing
  }

  lemma ClosingStays(c: Config, s: System, step: Step, id: nat)
    requires Consistent(s.m) && Enabled(c, s, step) && IsClosing(s, id)
    ensures IsClosing(Apply(c, s, step), id)
  {
    if MovesHandler(step) {
      HandlersOnly(c, s, step);
    }
  }

  /** One step starts no forwarding on a relay that is closing. */
  lemma ForwardedBefore(c: Config, s: System, step: Step, id: nat, t: nat)
    requires Inv(c, s) && IsClosing(s, id)
    ensures IsClosing(Next(c, s, step), id)
    ensures ForwardsOn(Next(c, s, step), t, id) ==> ForwardsOn(s, t, id)
  {
    if Enabled(c, s, step) {
      ClosingStays(c, s, step, id);
      if ForwardsOn(Apply(c, s, step), t, id) {
        ForwardingStartsLive(c, s, step, t);
      }
    }
  }

  /** Relay `id` stays closed from one state to the other, and handler `t` does not start to forward on it. */
  ghost predicate NoNewForwarder(before: System, after: System, id: nat, t: nat) {
    IsClosing(before, id) ==> IsClosing(after, id) && (ForwardsOn(after, t, id) ==> ForwardsOn(before, t, id))
  }

  lemma OneMoreStepForwarded(c: Config, steps: seq<Step>, j: nat, id: nat, t: nat)
    requires ConfigOk(c) && j < |steps|
    ensures NoNewForwarder(Exec(c, steps[..j]), Exec(c, steps[..j+1]), id, t)
  {
    AtNext(c, steps, j);
    var before := Exec(c, steps[..j]);
    if IsClosing(before, id) {
      RunKeeps(c, steps[..j]);
      ForwardedBefore(c, before, steps[j], id, t);
    }
  }

  lemma {:induction false} NoNewForwarders(c: Config, steps: seq<Step>, k: nat, id: nat, t: nat)
    requires ConfigOk(c) && k <= |steps|
    ensures NoNewForwarder(Exec(c, steps[..k]), Exec(c, steps[..|steps|]), id, t)
    decreases |steps| - k
  {
    if k != |steps| {
      OneMoreStepForwarded(c, steps, k, id, t);
      NoNewForwarders(c, steps, k + 1, id, t);
    }
  }

  /** Forwarding never outgrows a closed relay: if relay `id` was closing after the first `k` steps, it
      is closing after the whole run, and every handler that forwards on it then was forwarding on
      it already after those `k` steps. */
  lemma NoForwardingStartsAfterDetach(c: Config, steps: seq<Step>, k: nat, id: nat, t: nat)
    requires ConfigOk(c) && k <= |steps|
    ensures var before, after := Exec(c, steps[..k]), Exec(c, steps);
      IsClosing(before, id) ==> IsClosing(after, id) && (ForwardsOn(after, t, id) ==> ForwardsOn(before, t, id))
  {
    NoNewForwarders(c, steps, k, id, t);
    assert steps[..|steps|] == steps;
  }
}
