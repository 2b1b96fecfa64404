/**
 What connector tunnels are authorized by, over whole runs: told from the session rows and the
 revocations alone, at the steps at which the tunnels asked. And what a tunnel comes to that
 nobody disturbs.
 */
module ConnectorSessions {
  import opened ConnectorRegistrySpec
  import opened ConnectorAccess

  /** The session row is for this device and in order, and the device is not revoked. */
  predicate InOrder(s: System, session: nat, device: nat) {
    && session in s.sessions && s.sessions[session].device == device && s.sessions[session].valid
    && device !in s.revoked
  }

  // ---------- What the rows say ----------

  lemma RowsStepByStep(cap: int, s: System, step: Step, session: nat, device: nat)
    ensures var s' := Next(cap, s, step);
      && (device in s'.revoked <==> device in s.revoked || step == CommitRevoke(device))
      && (device in s'.popped <==> device in s.popped || (step == PopTracked(device) && device in s.revoked))
      && (session in s.sessions ==>
            && session in s'.sessions && s'.sessions[session].device == s.sessions[session].device
            && (s'.sessions[session].valid <==> s.sessions[session].valid && step != EndSession(session)))
      && (session !in s.sessions ==>
            if step.NewSession? && step.session == session then session in s'.sessions && s'.sessions[session] == Session(step.device, true)
            else session !in s'.sessions)
  {
  }

  ghost predicate PoppedAt(cap: int, steps: seq<Step>, k: nat, device: nat) {
    k < |steps| && steps[k] == PopTracked(device) && device in Exec(cap, steps[..k]).revoked
  }

  /** Step `k` ends a session that there is. */
  ghost predicate EndedAt(cap: int, steps: seq<Step>, k: nat, session: nat) {
    k < |steps| && steps[k] == EndSession(session) && session in Exec(cap, steps[..k]).sessions
  }

  /** Over a whole run: a device is revoked if and only if some step committed that, its tunnels were popped
      if and only if some step did so after that, and a session is in order until some step ends it. */
  lemma {:induction false} RowsFollowTheSteps(cap: int, steps: seq<Step>, session: nat, device: nat)
    ensures device in Exec(cap, steps).revoked <==> CommitRevoke(device) in steps
    ensures device in Exec(cap, steps).popped <==> exists k: nat :: PoppedAt(cap, steps, k, device)
    ensures session in Exec(cap, steps).sessions ==>
      (Exec(cap, steps).sessions[session].valid <==> !exists k: nat :: EndedAt(cap, steps, k, session))
    ensures session !in Exec(cap, steps).sessions ==> !exists k: nat :: EndedAt(cap, steps, k, session)
  {
    if steps == [] {
      assert forall k: nat :: !PoppedAt(cap, steps, k, device) && !EndedAt(cap, steps, k, session);
    } else {
      var n := |steps| - 1;
      var s, step := Exec(cap, steps[..n]), steps[n];
      RowsFollowTheSteps(cap, steps[..n], session, device);
      RowsStepByStep(cap, s, step, session, device);
      assert steps == steps[..n] + [step];
      PoppedMore(cap, steps, device);
      EndedMore(cap, steps, session);
    }
  }

  lemma PoppedMore(cap: int, steps: seq<Step>, device: nat)
    requires steps != []
    ensures var n := |steps| - 1;
      (exists k: nat :: PoppedAt(cap, steps, k, device)) <==>
      (exists k: nat :: PoppedAt(cap, steps[..n], k, device)) || (steps[n] == PopTracked(device) && device in Exec(cap, steps[..n]).revoked)
  {
    var n := |steps| - 1;
    forall k: nat | k < n ensures PoppedAt(cap, steps, k, device) <==> PoppedAt(cap, steps[..n], k, device) {
      assert steps[..n][..k] == steps[..k];
    }
    if k: nat :| PoppedAt(cap, steps[..n], k, device) {
      assert PoppedAt(cap, steps, k, device);
    }
    assert PoppedAt(cap, steps, n, device) <==> steps[n] == PopTracked(device) && device in Exec(cap, steps[..n]).revoked;
  }

  lemma EndedMore(cap: int, steps: seq<Step>, session: nat)
    requires steps != []
    ensures var n := |steps| - 1;
      (exists k: nat :: EndedAt(cap, steps, k, session)) <==>
      (exists k: nat :: EndedAt(cap, steps[..n], k, session)) || (steps[n] == EndSession(session) && session in Exec(cap, steps[..n]).sessions)
  {
    var n := |steps| - 1;
    forall k: nat | k < n ensures EndedAt(cap, steps, k, session) <==> EndedAt(cap, steps[..n], k, session) {
      assert steps[..n][..k] == steps[..k];
    }
    if k: nat :| EndedAt(cap, steps[..n], k, session) {
      assert EndedAt(cap, steps, k, session);
    }
    assert EndedAt(cap, steps, n, session) <==> steps[n] == EndSession(session) && session in Exec(cap, steps[..n]).sessions;
  }

  // ---------- Arrival ----------

  /** Tunnel `t` arrives at step `k`. */
  ghost predicate ArrivedAt(cap: int, steps: seq<Step>, k: nat, t: nat, session: nat, device: nat) {
    k < |steps| && steps[k] == Arrive(t, session, device) && t !in Exec(cap, steps[..k]).tunnels
  }

  lemma ArrivesOrStays(cap: int, s: System, step: Step, t: nat)
    requires t in Next(cap, s, step).tunnels
    ensures var u := Next(cap, s, step).tunnels[t];
      if t in s.tunnels then u.session == s.tunnels[t].session && u.device == s.tunnels[t].device && (s.tunnels[t].pc == Rejected ==> u.pc == Rejected)
      else step == Arrive(t, u.session, u.device) && u.pc == if InOrder(s, u.session, u.device) then Validated else Rejected
  {
  }

  /** Every tunnel arrived at some step of the run, with its session and its device; unless it was turned
      away, its session was then for that device and in order, and the device was not revoked. */
  lemma {:induction false} EveryTunnelArrivedInOrder(cap: int, steps: seq<Step>, t: nat)
    requires t in Exec(cap, steps).tunnels
    ensures var u := Exec(cap, steps).tunnels[t];
      exists k: nat ::
        ArrivedAt(cap, steps, k, t, u.session, u.device) && (u.pc != Rejected ==> InOrder(Exec(cap, steps[..k]), u.session, u.device))
  {
    var n := |steps| - 1;
    var before := Exec(cap, steps[..n]);
    var u := Exec(cap, steps).tunnels[t];
    ArrivesOrStays(cap, before, steps[n], t);
    if t in before.tunnels {
      EveryTunnelArrivedInOrder(cap, steps[..n], t);
      var k: nat :|
        ArrivedAt(cap, steps[..n], k, t, u.session, u.device) && (before.tunnels[t].pc != Rejected ==> InOrder(Exec(cap, steps[..n][..k]), u.session, u.device));
      assert steps[..n][..k] == steps[..k];
      assert ArrivedAt(cap, steps, k, t, u.session, u.device);
    } else {
      assert ArrivedAt(cap, steps, n, t, u.session, u.device);
      assert u.pc != Rejected ==> InOrder(Exec(cap, steps[..n]), u.session, u.device);
    }
  }

  /** The step turns tunnel `t` away: its session is not in order when it arrives, or has no slot left. */
  predicate TurnsAway(cap: int, s: System, step: Step, t: nat) {
    || (step.Arrive? && step.t == t && t !in s.tunnels
        && (step.session !in s.sessions || s.sessions[step.session].device != step.device || !s.sessions[step.session].valid || step.device in s.revoked))
    || (step == ReserveSlot(t) && At(s, t, Validated) && Count(s.registry, s.tunnels[t].session) >= cap)
  }

  ghost predicate TurnedAwayAt(cap: int, steps: seq<Step>, k: nat, t: nat) {
    k < |steps| && TurnsAway(cap, Exec(cap, steps[..k]), steps[k], t)
  }

  lemma RejectedStepByStep(cap: int, s: System, step: Step, t: nat)
    ensures IsAt(Next(cap, s, step), t, Rejected) <==> IsAt(s, t, Rejected) || TurnsAway(cap, s, step, t)
  {
  }

  /** Over a whole run: a tunnel is rejected if and only if such a step was taken. */
  lemma {:induction false} RejectedExactlyWhen(cap: int, steps: seq<Step>, t: nat)
    ensures IsAt(Exec(cap, steps), t, Rejected) <==> exists k: nat :: TurnedAwayAt(cap, steps, k, t)
  {
    if steps == [] {
      assert forall k: nat :: !TurnedAwayAt(cap, steps, k, t);
    } else {
      var n := |steps| - 1;
      RejectedExactlyWhen(cap, steps[..n], t);
      RejectedStepByStep(cap, Exec(cap, steps[..n]), steps[n], t);
      forall k: nat ensures TurnedAwayAt(cap, steps, k, t) <==>
        TurnedAwayAt(cap, steps[..n], k, t) || (k == n && TurnsAway(cap, Exec(cap, steps[..n]), steps[n], t))
      {
        assert k < n ==> steps[..n][..k] == steps[..k];
      }
      if TurnsAway(cap, Exec(cap, steps[..n]), steps[n], t) {
        assert TurnedAwayAt(cap, steps, n, t);
      }
      if k: nat :| TurnedAwayAt(cap, steps[..n], k, t) {
        assert TurnedAwayAt(cap, steps, k, t);
      }
    }
  }

  // ---------- The two re-checks ----------

  /** Past the answer of the first re-check, or of the second. */
  predicate Passed(pc: Pc, second: bool) {
    || pc == SecondRead(Yes) || pc == Accepting || pc == Relaying
    || (!second && (pc == FirstRead(Yes) || pc == Connecting || pc == Rechecking || pc.SecondRead?))
  }

  function ReadStep(t: nat, second: bool): Step {
    if second then ReadSecond(t, false) else ReadFirst(t, false)
  }

  /** Step `k` reads the database for that re-check, which does not raise, while the session is in order. */
  ghost predicate ConfirmedAt(cap: int, steps: seq<Step>, k: nat, t: nat, second: bool, session: nat, device: nat) {
    && k < |steps| && steps[k] == ReadStep(t, second) && IsAt(Exec(cap, steps[..k]), t, if second then Rechecking else Tracked)
    && InOrder(Exec(cap, steps[..k]), session, device)
  }

  lemma ConfirmedOrStays(cap: int, s: System, step: Step, t: nat, second: bool)
    requires t in Next(cap, s, step).tunnels && Passed(Next(cap, s, step).tunnels[t].pc, second)
    ensures t in s.tunnels
    ensures s.tunnels[t].session == Next(cap, s, step).tunnels[t].session && s.tunnels[t].device == Next(cap, s, step).tunnels[t].device
    ensures Passed(s.tunnels[t].pc, second)
      || (step == ReadStep(t, second) && IsAt(s, t, if second then Rechecking else Tracked) && InOrder(s, s.tunnels[t].session, s.tunnels[t].device))
  {
  }

  lemma {:induction false} PassedWasConfirmed(cap: int, steps: seq<Step>, t: nat, second: bool)
    requires t in Exec(cap, steps).tunnels && Passed(Exec(cap, steps).tunnels[t].pc, second)
    ensures var u := Exec(cap, steps).tunnels[t]; exists k: nat :: ConfirmedAt(cap, steps, k, t, second, u.session, u.device)
  {
    var n := |steps| - 1;
    var before := Exec(cap, steps[..n]);
    var u := Exec(cap, steps).tunnels[t];
    ConfirmedOrStays(cap, before, steps[n], t, second);
    if Passed(before.tunnels[t].pc, second) {
      PassedWasConfirmed(cap, steps[..n], t, second);
      var k: nat :| ConfirmedAt(cap, steps[..n], k, t, second, u.session, u.device);
      assert steps[..n][..k] == steps[..k];
      assert ConfirmedAt(cap, steps, k, t, second, u.session, u.device);
    } else {
      assert ConfirmedAt(cap, steps, n, t, second, u.session, u.device);
    }
  }

  /** A tunnel that is being accepted or is relaying was confirmed twice: some step of the run read the
      database for its first re-check and some step for its second, and at both its session was for
      its device and valid, and the device was not revoked. */
  lemma AcceptedWasConfirmedTwice(cap: int, steps: seq<Step>, t: nat)
    ensures var s := Exec(cap, steps);
      IsAt(s, t, Accepting) || IsAt(s, t, Relaying) ==>
        var session, device := s.tunnels[t].session, s.tunnels[t].device;
        && (exists i: nat :: ConfirmedAt(cap, steps, i, t, false, session, device))
        && (exists k: nat :: ConfirmedAt(cap, steps, k, t, true, session, device))
  {
    var s := Exec(cap, steps);
    if IsAt(s, t, Accepting) || IsAt(s, t, Relaying) {
      PassedWasConfirmed(cap, steps, t, false);
      PassedWasConfirmed(cap, steps, t, true);
    }
  }

  /** Every read answers what the rows say at that step, and only a yes goes on. */
  lemma AnswersSayWhatTheRowsSay(cap: int, s: System, t: nat, raises: bool)
    requires t in s.tunnels
    ensures var u := s.tunnels[t];
      var inOrder := u.session in s.sessions && s.sessions[u.session].device == u.device && s.sessions[u.session].valid && u.device !in s.revoked;
      var answer := if raises then Raised else if inOrder then Yes else No;
      && (IsAt(s, t, Tracked) ==> IsAt(Next(cap, s, ReadFirst(t, raises)), t, FirstRead(answer)))
      && (IsAt(s, t, Rechecking) ==> IsAt(Next(cap, s, ReadSecond(t, raises)), t, SecondRead(answer)))
  {
  }

  // ---------- What a tunnel comes to that nobody disturbs ----------

  function WithTunnel(s: System, registry: Registry, t: nat, u: Tunnel): System {
    s.(registry := registry, tunnels := s.tunnels[t := u])
  }

  lemma WithTwice(s: System, a: Registry, b: Registry, t: nat, u: Tunnel, u': Tunnel)
    ensures WithTunnel(WithTunnel(s, a, t, u), b, t, u') == WithTunnel(s, b, t, u')
  {
    assert s.tunnels[t := u][t := u'] == s.tunnels[t := u'];
  }

  lemma ArriveNext(cap: int, s: System, t: nat, session: nat, device: nat)
    requires t !in s.tunnels
    ensures Next(cap, s, Arrive(t, session, device)) ==
      WithTunnel(s, s.registry, t, Tunnel(session, device, if InOrder(s, session, device) then Validated else Rejected, false))
  {
  }

  lemma ReserveNext(cap: int, s: System, t: nat, u: Tunnel)
    requires u.pc == Validated && !u.cancelled
    ensures Next(cap, WithTunnel(s, s.registry, t, u), ReserveSlot(t)) ==
      if Count(s.registry, u.session) >= cap then WithTunnel(s, s.registry, t, u.(pc := Rejected))
      else WithTunnel(s, s.registry.(counts := s.registry.counts[u.session := Count(s.registry, u.session) + 1]), t, u.(pc := Reserved))
  {
    var r := if Count(s.registry, u.session) >= cap then s.registry else s.registry.(counts := s.registry.counts[u.session := Count(s.registry, u.session) + 1]);
    WithTwice(s, s.registry, r, t, u, u.(pc := Rejected));
    WithTwice(s, s.registry, r, t, u, u.(pc := Reserved));
  }

  lemma TrackNext(cap: int, s: System, r: Registry, t: nat, u: Tunnel)
    requires u.pc == Reserved && !u.cancelled
    ensures Next(cap, WithTunnel(s, r, t, u), TrackTunnel(t)) == WithTunnel(s, Track(r, u.device, t), t, u.(pc := Tracked))
  {
    WithTwice(s, r, Track(r, u.device, t), t, u, u.(pc := Tracked));
  }

  /** The steps of tunnel `t` that leave the tables as they are. */
  lemma QuietNext(cap: int, s: System, r: Registry, t: nat, u: Tunnel, step: Step, pc: Pc)
    requires !u.cancelled && Enabled(WithTunnel(s, r, t, u), step) && MovesTunnel(step) && step.t == t
    requires !step.Arrive? && !step.ReserveSlot? && !step.TrackTunnel? && !step.ReleaseSlot?
    requires IsAt(Next(cap, WithTunnel(s, r, t, u), step), t, pc)
    ensures Next(cap, WithTunnel(s, r, t, u), step) == WithTunnel(s, r, t, u.(pc := pc))
  {
    WithTwice(s, r, r, t, u, u.(pc := pc));
  }

  lemma ReleaseNext(cap: int, s: System, r: Registry, t: nat, u: Tunnel)
    requires u.pc == Leaving
    ensures Next(cap, WithTunnel(s, r, t, u), ReleaseSlot(t)) == WithTunnel(s, Release(r, u.session, u.device, t), t, u.(pc := Left))
  {
    WithTwice(s, r, Release(r, u.session, u.device, t), t, u, u.(pc := Left));
  }

  /** The tables with one more tunnel of the session, counted and tracked under its device. */
  function OneMore(r: Registry, session: nat, device: nat, t: nat): Registry {
    Registry(
      r.counts[session := (if session in r.counts then r.counts[session] else 0) + 1],
      r.websockets[device := (if device in r.websockets then r.websockets[device] else {}) + {t}],
      r.tasks[device := (if device in r.tasks then r.tasks[device] else {}) + {t}])
  }

  function Opened(steps: seq<Step>, t: nat, session: nat, device: nat): seq<Step> {
    steps + [Arrive(t, session, device)] + [ReserveSlot(t)] + [TrackTunnel(t)] + [ReadFirst(t, false)] + [FirstAnswer(t)]
  }

  /** From its arrival to the relaying of bytes. */
  function Established(steps: seq<Step>, t: nat, session: nat, device: nat): seq<Step> {
    Opened(steps, t, session, device) + [ConnectResult(t, true)] + [ReadSecond(t, false)] + [SecondAnswer(t)] + [AcceptDone(t, true)]
  }

  lemma ReservedAlone(cap: int, steps: seq<Step>, t: nat, session: nat, device: nat)
    requires var s := Exec(cap, steps); t !in s.tunnels && InOrder(s, session, device) && Count(s.registry, session) < cap
    ensures var s := Exec(cap, steps);
      Exec(cap, steps + [Arrive(t, session, device)] + [ReserveSlot(t)] + [TrackTunnel(t)]) ==
      WithTunnel(s, OneMore(s.registry, session, device, t), t, Tunnel(session, device, Tracked, false))
  {
    var s := Exec(cap, steps);
    var r1 := steps + [Arrive(t, session, device)];
    Extend(cap, steps, Arrive(t, session, device));
    ArriveNext(cap, s, t, session, device);
    Extend(cap, r1, ReserveSlot(t));
    ReserveNext(cap, s, t, Tunnel(session, device, Validated, false));
    Extend(cap, r1 + [ReserveSlot(t)], TrackTunnel(t));
    TrackNext(cap, s, s.registry.(counts := s.registry.counts[session := Count(s.registry, session) + 1]), t, Tunnel(session, device, Reserved, false));
  }

  lemma OpenedAlone(cap: int, steps: seq<Step>, t: nat, session: nat, device: nat)
    requires var s := Exec(cap, steps); t !in s.tunnels && InOrder(s, session, device) && Count(s.registry, session) < cap
    ensures var s := Exec(cap, steps);
      Exec(cap, Opened(steps, t, session, device)) == WithTunnel(s, OneMore(s.registry, session, device, t), t, Tunnel(session, device, Connecting, false))
  {
    var s := Exec(cap, steps);
    var r, u := OneMore(s.registry, session, device, t), Tunnel(session, device, Tracked, false);
    var r3 := steps + [Arrive(t, session, device)] + [ReserveSlot(t)] + [TrackTunnel(t)];
    ReservedAlone(cap, steps, t, session, device);
    Extend(cap, r3, ReadFirst(t, false));
    QuietNext(cap, s, r, t, u, ReadFirst(t, false), FirstRead(Yes));
    Extend(cap, r3 + [ReadFirst(t, false)], FirstAnswer(t));
    QuietNext(cap, s, r, t, u.(pc := FirstRead(Yes)), FirstAnswer(t), Connecting);
  }

  lemma EstablishedAlone(cap: int, steps: seq<Step>, t: nat, session: nat, device: nat)
    requires var s := Exec(cap, steps); t !in s.tunnels && InOrder(s, session, device) && Count(s.registry, session) < cap
    ensures var s := Exec(cap, steps);
      Exec(cap, Established(steps, t, session, device)) == WithTunnel(s, OneMore(s.registry, session, device, t), t, Tunnel(session, device, Relaying, false))
  {
    var s := Exec(cap, steps);
    var r, u := OneMore(s.registry, session, device, t), Tunnel(session, device, Connecting, false);
    var r5 := Opened(steps, t, session, device);
    var r7 := r5 + [ConnectResult(t, true)] + [ReadSecond(t, false)];
    OpenedAlone(cap, steps, t, session, device);
    Extend(cap, r5, ConnectResult(t, true));
    QuietNext(cap, s, r, t, u, ConnectResult(t, true), Rechecking);
    Extend(cap, r5 + [ConnectResult(t, true)], ReadSecond(t, false));
    QuietNext(cap, s, r, t, u.(pc := Rechecking), ReadSecond(t, false), SecondRead(Yes));
    Extend(cap, r7, SecondAnswer(t));
    QuietNext(cap, s, r, t, u.(pc := SecondRead(Yes)), SecondAnswer(t), Accepting);
    Extend(cap, r7 + [SecondAnswer(t)], AcceptDone(t, true));
    QuietNext(cap, s, r, t, u.(pc := Accepting), AcceptDone(t, true), Relaying);
  }

  /** No table has an entry without tunnels. */
  ghost predicate NoEmptyEntry(r: Registry) {
    && (forall device :: device in r.tasks ==> r.tasks[device] != {})
    && (forall device :: device in r.websockets ==> r.websockets[device] != {})
  }

  lemma StepLeavesNoEmptyEntry(cap: int, s: System, step: Step)
    requires NoEmptyEntry(s.registry)
    ensures NoEmptyEntry(Next(cap, s, step).registry)
  {
  }

  lemma {:induction false} RunLeavesNoEmptyEntry(cap: int, steps: seq<Step>)
    ensures NoEmptyEntry(Exec(cap, steps).registry)
  {
    if steps != [] {
      RunLeavesNoEmptyEntry(cap, steps[..|steps|-1]);
      StepLeavesNoEmptyEntry(cap, Exec(cap, steps[..|steps|-1]), steps[|steps|-1]);
    }
  }

  lemma ReleaseUndoesOneMore(r: Registry, session: nat, device: nat, t: nat)
    requires NoEmptyEntry(r) && t !in Members(r.tasks, device) && t !in Members(r.websockets, device)
    requires session in r.counts ==> r.counts[session] >= 1
    ensures Release(OneMore(r, session, device, t), session, device, t) == r
  {
    var after := Release(OneMore(r, session, device, t), session, device, t);
    assert after.counts == r.counts;
    assert Members(r.tasks, device) + {t} - {t} == Members(r.tasks, device);
    assert after.tasks == r.tasks;
    assert Members(r.websockets, device) + {t} - {t} == Members(r.websockets, device);
    assert after.websockets == r.websockets;
  }

  lemma TurnedAwayAlone(cap: int, steps: seq<Step>, t: nat, session: nat, device: nat)
    requires var s := Exec(cap, steps); t !in s.tunnels && (!InOrder(s, session, device) || Count(s.registry, session) >= cap)
    ensures Exec(cap, steps + [Arrive(t, session, device)] + [ReserveSlot(t)]) ==
      WithTunnel(Exec(cap, steps), Exec(cap, steps).registry, t, Tunnel(session, device, Rejected, false))
  {
    var s := Exec(cap, steps);
    Extend(cap, steps, Arrive(t, session, device));
    ArriveNext(cap, s, t, session, device);
    Extend(cap, steps + [Arrive(t, session, device)], ReserveSlot(t));
    if InOrder(s, session, device) {
      ReserveNext(cap, s, t, Tunnel(session, device, Validated, false));
    }
  }

  lemma StaysTurnedAway(cap: int, steps: seq<Step>, step: Step, t: nat)
    requires IsAt(Exec(cap, steps), t, Rejected) && MovesTunnel(step) && step.t == t
    ensures Exec(cap, steps + [step]) == Exec(cap, steps)
  {
    Extend(cap, steps, step);
  }

  /** After every run: a new tunnel that nobody disturbs comes to relay bytes if and only if its session
      is for its device and valid, the device is not revoked, and the session has a slot left; it is
      then counted and tracked. Otherwise it is rejected and leaves the tables alone. */
  lemma AnUndisturbedTunnelRelays(cap: int, steps: seq<Step>, t: nat, session: nat, device: nat)
    requires t !in Exec(cap, steps).tunnels
    ensures var s, after := Exec(cap, steps), Exec(cap, Established(steps, t, session, device));
      if && session in s.sessions && s.sessions[session].device == device && s.sessions[session].valid
         && device !in s.revoked && (if session in s.registry.counts then s.registry.counts[session] else 0) < cap
      then after == s.(registry := OneMore(s.registry, session, device, t), tunnels := s.tunnels[t := Tunnel(session, device, Relaying, false)])
      else after == s.(tunnels := s.tunnels[t := Tunnel(session, device, Rejected, false)])
  {
    var s := Exec(cap, steps);
    if InOrder(s, session, device) && Count(s.registry, session) < cap {
      EstablishedAlone(cap, steps, t, session, device);
    } else {
      var r2 := steps + [Arrive(t, session, device)] + [ReserveSlot(t)];
      var r5 := r2 + [TrackTunnel(t)] + [ReadFirst(t, false)] + [FirstAnswer(t)];
      var r7 := r5 + [ConnectResult(t, true)] + [ReadSecond(t, false)];
      TurnedAwayAlone(cap, steps, t, session, device);
      StaysTurnedAway(cap, r2, TrackTunnel(t), t);
      StaysTurnedAway(cap, r2 + [TrackTunnel(t)], ReadFirst(t, false), t);
      StaysTurnedAway(cap, r2 + [TrackTunnel(t)] + [ReadFirst(t, false)], FirstAnswer(t), t);
      StaysTurnedAway(cap, r5, ConnectResult(t, true), t);
      StaysTurnedAway(cap, r5 + [ConnectResult(t, true)], ReadSecond(t, false), t);
      StaysTurnedAway(cap, r7, SecondAnswer(t), t);
      StaysTurnedAway(cap, r7 + [SecondAnswer(t)], AcceptDone(t, true), t);
    }
  }

  /** When its relaying ends, such a tunnel gives back everything: the tables are as before it came. */
  lemma AnEndedTunnelLeavesNoTrace(cap: int, steps: seq<Step>, t: nat, session: nat, device: nat)
    requires 0 <= cap
    requires var s := Exec(cap, steps); t !in s.tunnels && InOrder(s, session, device) && Count(s.registry, session) < cap
    ensures var s := Exec(cap, steps);
      Exec(cap, Established(steps, t, session, device) + [RelayEnds(t)] + [ReleaseSlot(t)]) == s.(tunnels := s.tunnels[t := Tunnel(session, device, Left, false)])
  {
    var s := Exec(cap, steps);
    var r, u := OneMore(s.registry, session, device, t), Tunnel(session, device, Relaying, false);
    var r9 := Established(steps, t, session, device);
    EstablishedAlone(cap, steps, t, session, device);
    Extend(cap, r9, RelayEnds(t));
    QuietNext(cap, s, r, t, u, RelayEnds(t), Leaving);
    Extend(cap, r9 + [RelayEnds(t)], ReleaseSlot(t));
    ReleaseNext(cap, s, r, t, u.(pc := Leaving));
    UntrackedBefore(cap, steps, t, session, device);
    ReleaseUndoesOneMore(s.registry, session, device, t);
  }

  lemma UntrackedBefore(cap: int, steps: seq<Step>, t: nat, session: nat, device: nat)
    requires 0 <= cap && t !in Exec(cap, steps).tunnels
    ensures var r := Exec(cap, steps).registry;
      && NoEmptyEntry(r) && t !in Members(r.tasks, device) && t !in Members(r.websockets, device)
      && (session in r.counts ==> r.counts[session] >= 1)
  {
    RunKeeps(cap, steps);
    RunLeavesNoEmptyEntry(cap, steps);
  }

  /** The shutdown of the Hub cancels every tunnel that was tracked and not released, whatever its
      device, cancels no other, and empties both tables of tunnels. */
  lemma ShutdownCancelsTheTracked(cap: int, steps: seq<Step>)
    requires 0 <= cap
    ensures var s, after := Exec(cap, steps), Exec(cap, steps + [HubShutdown]);
      && after.registry.tasks == map[] && after.registry.websockets == map[] && after.registry.counts == s.registry.counts
      && after.tunnels.Keys == s.tunnels.Keys
      && (forall t :: t in s.tunnels && Tracks(s.tunnels[t].pc) && s.tunnels[t].pc != Lost ==> after.tunnels[t] == s.tunnels[t].(cancelled := true))
      && (forall t :: t in s.tunnels && !Tracks(s.tunnels[t].pc) ==> after.tunnels[t] == s.tunnels[t])
  {
    Extend(cap, steps, HubShutdown);
    RunKeeps(cap, steps);
    var s := Exec(cap, steps);
    forall t | t in s.tunnels && Tracks(s.tunnels[t].pc) && s.tunnels[t].pc != Lost
      ensures s.tunnels[t].cancelled || t in Members(s.registry.tasks, s.tunnels[t].device)
    {
      assert TunnelOk(s, t);
    }
  }

  /** A revoke that pops a device's tunnels cancels every tracked one of that device and no tunnel of
      another, and gives no slot back: that is left to the tunnels themselves. */
  lemma PopCancelsItsOwn(cap: int, steps: seq<Step>, device: nat)
    requires 0 <= cap && device in Exec(cap, steps).revoked
    ensures var s, after := Exec(cap, steps), Exec(cap, steps + [PopTracked(device)]);
      && after.registry == s.registry.(websockets := s.registry.websockets - {device}, tasks := s.registry.tasks - {device})
      && after.tunnels.Keys == s.tunnels.Keys
      && (forall t :: t in s.tunnels && s.tunnels[t].device == device && Tracks(s.tunnels[t].pc) && s.tunnels[t].pc != Lost ==>
            after.tunnels[t] == s.tunnels[t].(cancelled := true))
      && (forall t :: t in s.tunnels && (s.tunnels[t].device != device || !Tracks(s.tunnels[t].pc)) ==> after.tunnels[t] == s.tunnels[t])
  {
    Extend(cap, steps, PopTracked(device));
    RunKeeps(cap, steps);
    var s := Exec(cap, steps);
    forall t | t in s.tunnels && Tracks(s.tunnels[t].pc) && s.tunnels[t].pc != Lost
      ensures s.tunnels[t].cancelled || t in Members(s.registry.tasks, s.tunnels[t].device)
    {
      assert TunnelOk(s, t);
    }
  }

  /** A tunnel that was cancelled goes nowhere but out: it stays where it is, at most sees the worker
      thread's read come back, or leaves, with or without its release; and it stays cancelled. */
  lemma CancelledOnlyLeaves(cap: int, steps: seq<Step>, step: Step, t: nat)
    requires IsCancelled(Exec(cap, steps), t)
    ensures var u, u' := Exec(cap, steps).tunnels[t], Exec(cap, steps + [step]).tunnels[t];
      && u'.cancelled
      && (u'.pc == u.pc || u'.pc == Leaving || u'.pc == Left || u'.pc == Lost
          || (u.pc == Tracked && u'.pc.FirstRead?) || (u.pc == Rechecking && u'.pc.SecondRead?))
  {
    Extend(cap, steps, step);
  }

  predicate IsCancelled(s: System, t: nat) {
    t in s.tunnels && s.tunnels[t].cancelled
  }
}
