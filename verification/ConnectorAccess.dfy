/**
 Every interleaving of connector tunnels (`connector_device_tunnel`) with the revocation of
 their devices. One step is what one task does between two waits; an authorization re-check is
 two steps, because a worker thread reads the database and the tunnel sees the answer later.
 */
module ConnectorAccess {
  import opened ConnectorRegistrySpec

  /** What comes back from the worker thread: the answer, or an exception of the database. */
  datatype Answer = Yes | No | Raised

  datatype Pc =
    | Validated              // the bearer token was accepted
    | Reserved               // holds a connection slot, waits for the lock to be tracked
    | Tracked                // the first re-check has not read the database yet
    | FirstRead(answer: Answer)    // ... has read it; the answer is on its way
    | Connecting             // `agent` is bound from here on
    | Rechecking             // the second re-check has not read the database yet
    | SecondRead(answer: Answer)
    | Accepting
    | Relaying
    | Leaving                // in `finally`, about to release
    | Left
    | Rejected               // ended before it held a slot
    | Lost                   // ended without releasing

  datatype Tunnel = Tunnel(session: nat, device: nat, pc: Pc, cancelled: bool)

  /** A connector session row: its device, and whether the session itself is in order. */
  datatype Session = Session(device: nat, valid: bool)

  datatype System = System(
    registry: Registry,
    tunnels: map<nat, Tunnel>,
    sessions: map<nat, Session>,
    revoked: set<nat>,   // devices whose revocation or deletion is committed
    popped: set<nat>)    // devices whose tracked tunnels a revoke has popped and cancelled

  datatype Step =
    | NewSession(session: nat, device: nat)
    | EndSession(session: nat)
    | CommitRevoke(device: nat)
    | PopTracked(device: nat)
    | HubShutdown
    | Arrive(t: nat, session: nat, device: nat)
    | ReserveSlot(t: nat)
    | TrackTunnel(t: nat)
    | CancelUntracked(t: nat)   // the server cancels it before it is tracked, outside any `try`
    | ReadFirst(t: nat, raises: bool)
    | FirstAnswer(t: nat)
    | ConnectResult(t: nat, connected: bool)
    | ReadSecond(t: nat, raises: bool)
    | SecondAnswer(t: nat)
    | AcceptDone(t: nat, timeLeft: bool)
    | RelayEnds(t: nat)
    | ReleaseSlot(t: nat)
    | CancelLands(t: nat)

  const START := System(EMPTY, map[], map[], {}, {})

  /** `_connector_session_is_authorized`, on the database as committed now. */
  predicate Authorized(s: System, session: nat, device: nat) {
    session in s.sessions && s.sessions[session].valid && s.sessions[session].device == device && device !in s.revoked
  }

  /** One re-check of tunnel `t`. */
  function AnswerTo(s: System, t: nat, raises: bool): Answer
    requires t in s.tunnels
  {
    if raises then Raised else if Authorized(s, s.tunnels[t].session, s.tunnels[t].device) then Yes else No
  }

  predicate At(s: System, t: nat, pc: Pc) {
    t in s.tunnels && s.tunnels[t].pc == pc && !s.tunnels[t].cancelled
  }

  predicate Enabled(s: System, step: Step) {
    match step
    case NewSession(session, _) => session !in s.sessions
    case EndSession(session) => session in s.sessions
    case CommitRevoke(_) => true
    case PopTracked(device) => device in s.revoked
    case HubShutdown => true
    case Arrive(t, _, _) => t !in s.tunnels
    case ReserveSlot(t) => At(s, t, Validated)
    case TrackTunnel(t) => At(s, t, Reserved)
    case CancelUntracked(t) => At(s, t, Reserved)
    case ReadFirst(t, _) => t in s.tunnels && s.tunnels[t].pc == Tracked
    case FirstAnswer(t) => t in s.tunnels && s.tunnels[t].pc.FirstRead? && !s.tunnels[t].cancelled
    case ConnectResult(t, _) => At(s, t, Connecting)
    case ReadSecond(t, _) => t in s.tunnels && s.tunnels[t].pc == Rechecking
    case SecondAnswer(t) => t in s.tunnels && s.tunnels[t].pc.SecondRead? && !s.tunnels[t].cancelled
    case AcceptDone(t, _) => At(s, t, Accepting)
    case RelayEnds(t) => At(s, t, Relaying)
    case ReleaseSlot(t) => t in s.tunnels && s.tunnels[t].pc == Leaving
    case CancelLands(t) => t in s.tunnels && s.tunnels[t].cancelled && HoldsSlot(s.tunnels[t].pc) && s.tunnels[t].pc != Lost
  }

  function SetPc(s: System, t: nat, pc: Pc): System
    requires t in s.tunnels
  {
    s.(tunnels := s.tunnels[t := s.tunnels[t].(pc := pc)])
  }

  function CancelAll(s: System, ts: set<nat>): System {
    s.(tunnels := map t | t in s.tunnels :: if t in ts then s.tunnels[t].(cancelled := true) else s.tunnels[t])
  }

  /** Where a cancellation that lands while `agent` is still unbound, or inside `finally`,
      takes the tunnel: the release is skipped. */
  predicate SkipsRelease(pc: Pc) {
    pc == Tracked || pc.FirstRead? || pc == Leaving
  }

  function Apply(cap: int, s: System, step: Step): System
    requires Enabled(s, step)
  {
    match step
    case NewSession(session, device) => s.(sessions := s.sessions[session := Session(device, true)])
    case EndSession(session) => s.(sessions := s.sessions[session := s.sessions[session].(valid := false)])
    case CommitRevoke(device) => s.(revoked := s.revoked + {device})
    case PopTracked(device) =>
      CancelAll(s.(registry := Pop(s.registry, device), popped := s.popped + {device}), Members(s.registry.tasks, device))
    case HubShutdown =>
      CancelAll(s.(registry := PopAll(s.registry)), set t | t in s.tunnels && t in Members(s.registry.tasks, s.tunnels[t].device))
    case Arrive(t, session, device) =>
      s.(tunnels := s.tunnels[t := Tunnel(session, device, if Authorized(s, session, device) then Validated else Rejected, false)])
    case ReserveSlot(t) =>
      var (ok, registry) := Reserve(s.registry, s.tunnels[t].session, cap);
      SetPc(s.(registry := registry), t, if ok then Reserved else Rejected)
    case TrackTunnel(t) => SetPc(s.(registry := Track(s.registry, s.tunnels[t].device, t)), t, Tracked)
    case CancelUntracked(t) => SetPc(s, t, Lost)
    case ReadFirst(t, raises) => SetPc(s, t, FirstRead(AnswerTo(s, t, raises)))
    case FirstAnswer(t) => SetPc(s, t, if s.tunnels[t].pc.answer == Yes then Connecting else Lost)
    case ConnectResult(t, connected) => SetPc(s, t, if connected then Rechecking else Leaving)
    case ReadSecond(t, raises) => SetPc(s, t, SecondRead(AnswerTo(s, t, raises)))
    case SecondAnswer(t) => SetPc(s, t, if s.tunnels[t].pc.answer == Yes then Accepting else Leaving)
    case AcceptDone(t, timeLeft) => SetPc(s, t, if timeLeft then Relaying else Leaving)
    case RelayEnds(t) => SetPc(s, t, Leaving)
    case ReleaseSlot(t) => SetPc(s.(registry := Release(s.registry, s.tunnels[t].session, s.tunnels[t].device, t)), t, Left)
    case CancelLands(t) => SetPc(s, t, if SkipsRelease(s.tunnels[t].pc) then Lost else Leaving)
  }

  // ---------- What every step keeps ----------

  predicate HoldsSlot(pc: Pc) {
    pc != Validated && pc != Left && pc != Rejected
  }

  /** Has been tracked and not released. */
  predicate Tracks(pc: Pc) {
    HoldsSlot(pc) && pc != Reserved
  }

  /** Where an uncancelled tunnel of a popped device can be: it arrived late, or it is over. */
  predicate Harmless(pc: Pc) {
    pc == Validated || pc == Reserved || pc == Tracked || pc == FirstRead(No) || pc == FirstRead(Raised) || pc == Left || pc == Rejected || pc == Lost
  }

  ghost function Holders(s: System, session: nat): set<nat> {
    set t | t in s.tunnels && s.tunnels[t].session == session && HoldsSlot(s.tunnels[t].pc)
  }

  ghost predicate TunnelOk(s: System, t: nat)
    requires t in s.tunnels
  {
    var u := s.tunnels[t];
    && (Tracks(u.pc) && u.pc != Lost ==> u.cancelled || t in Members(s.registry.tasks, u.device))
    && (u.device in s.popped && !u.cancelled ==> Harmless(u.pc))
    && (u.cancelled ==> Tracks(u.pc) || u.pc == Left)
  }

  ghost predicate RegistryOk(s: System) {
    && (forall device, t :: t in Members(s.registry.tasks, device) ==>
          t in s.tunnels && s.tunnels[t].device == device && Tracks(s.tunnels[t].pc))
    && s.registry.websockets == s.registry.tasks
  }

  ghost predicate CountsOk(cap: int, s: System) {
    && (forall session :: Count(s.registry, session) == |Holders(s, session)| <= cap)
    && (forall session :: session in s.registry.counts ==> s.registry.counts[session] >= 1)
  }

  ghost predicate Inv(cap: int, s: System) {
    && s.popped <= s.revoked
    && RegistryOk(s)
    && CountsOk(cap, s)
    && forall t :: t in s.tunnels ==> TunnelOk(s, t)
  }

  lemma SameButOne(before: set<nat>, after: set<nat>, t: nat)
    requires forall u :: u != t ==> (u in after <==> u in before)
    ensures |after| == |before| - (if t in before then 1 else 0) + (if t in after then 1 else 0)
  {
    var rest := before - {t};
    assert before == if t in before then rest + {t} else rest;
    assert after == if t in after then rest + {t} else rest;
  }

  predicate MovesTunnel(step: Step) {
    !step.NewSession? && !step.EndSession? && !step.CommitRevoke? && !step.PopTracked? && !step.HubShutdown?
  }

  /** What a tunnel's own step does to the tables. */
  datatype Effect = Keep | Take | Enter | Free

  function Touch(r: Registry, u: Tunnel, t: nat, effect: Effect): Registry {
    match effect
    case Keep => r
    case Take => r.(counts := r.counts[u.session := Count(r, u.session) + 1])
    case Enter => Track(r, u.device, t)
    case Free => Release(r, u.session, u.device, t)
  }

  predicate SlotAt(s: System, t: nat) {
    t in s.tunnels && HoldsSlot(s.tunnels[t].pc)
  }

  /** Tunnel `t` becomes `u`, and the tables follow its program counter. */
  predicate Fits(cap: int, s: System, t: nat, u: Tunnel, effect: Effect) {
    && (t in s.tunnels ==> u == s.tunnels[t].(pc := u.pc))
    && (t !in s.tunnels ==> !u.cancelled)
    && (effect == Keep ==> (SlotAt(s, t) <==> HoldsSlot(u.pc)) && (t in s.tunnels && Tracks(s.tunnels[t].pc) ==> Tracks(u.pc)))
    && (effect == Keep && Tracks(u.pc) && u.pc != Lost ==> t in s.tunnels && Tracks(s.tunnels[t].pc))
    && (effect == Keep && t in s.tunnels && !SlotAt(s, t) ==> s.tunnels[t].pc == Validated)
    && (effect == Keep && SlotAt(s, t) && s.tunnels[t].pc == Lost ==> u.pc == Lost)
    && (effect == Take ==> !SlotAt(s, t) && u.pc == Reserved && !u.cancelled && Count(s.registry, u.session) < cap)
    && (effect == Enter ==> SlotAt(s, t) && u.pc == Tracked && !u.cancelled)
    && (effect == Free ==> SlotAt(s, t) && u.pc == Left)
    && (u.device in s.popped && !u.cancelled ==> Harmless(u.pc))
  }

  function EffectOf(step: Step, u: Tunnel): Effect {
    if step.ReserveSlot? && u.pc == Reserved then Take
    else if step.TrackTunnel? then Enter
    else if step.ReleaseSlot? then Free
    else Keep
  }

  lemma Shape(cap: int, s: System, step: Step)
    requires Enabled(s, step) && MovesTunnel(step)
    ensures step.t in Apply(cap, s, step).tunnels
    ensures var u := Apply(cap, s, step).tunnels[step.t];
      Apply(cap, s, step) == s.(registry := Touch(s.registry, u, step.t, EffectOf(step, u)), tunnels := s.tunnels[step.t := u])
  {
  }

  lemma ShapeFits(cap: int, s: System, step: Step)
    requires Enabled(s, step) && MovesTunnel(step) && s.popped <= s.revoked && (step.t in s.tunnels ==> TunnelOk(s, step.t))
    ensures step.t in Apply(cap, s, step).tunnels
    ensures var u := Apply(cap, s, step).tunnels[step.t]; Fits(cap, s, step.t, u, EffectOf(step, u))
  {
  }

  lemma CountKept(cap: int, s: System, t: nat, u: Tunnel, effect: Effect, session: nat)
    requires CountsOk(cap, s) && Fits(cap, s, t, u, effect)
    ensures Count(Touch(s.registry, u, t, effect), session) == |Holders(s.(tunnels := s.tunnels[t := u]), session)| <= cap
  {
    var s' := s.(tunnels := s.tunnels[t := u]);
    SameButOne(Holders(s, session), Holders(s', session), t);
    assert Count(s.registry, session) == |Holders(s, session)| <= cap;
  }

  lemma RegistryKept(cap: int, s: System, t: nat, u: Tunnel, effect: Effect)
    requires RegistryOk(s) && Fits(cap, s, t, u, effect)
    ensures RegistryOk(s.(registry := Touch(s.registry, u, t, effect), tunnels := s.tunnels[t := u]))
  {
    var s' := s.(registry := Touch(s.registry, u, t, effect), tunnels := s.tunnels[t := u]);
    forall device, v | v in Members(s'.registry.tasks, device)
      ensures v in s'.tunnels && s'.tunnels[v].device == device && Tracks(s'.tunnels[v].pc)
    {
      MembersAfter(s.registry, u.session, u.device, t, device);
    }
  }

  lemma TunnelKept(cap: int, s: System, t: nat, u: Tunnel, effect: Effect, v: nat)
    requires Fits(cap, s, t, u, effect) && (t in s.tunnels ==> TunnelOk(s, t)) && (v in s.tunnels ==> TunnelOk(s, v))
    requires v == t || v in s.tunnels
    ensures TunnelOk(s.(registry := Touch(s.registry, u, t, effect), tunnels := s.tunnels[t := u]), v)
  {
    MembersAfter(s.registry, u.session, u.device, t, if v == t then u.device else s.tunnels[v].device);
  }

  lemma TunnelStepKeeps(cap: int, s: System, step: Step)
    requires Inv(cap, s) && Enabled(s, step) && MovesTunnel(step)
    ensures Inv(cap, Apply(cap, s, step))
  {
    Shape(cap, s, step);
    ShapeFits(cap, s, step);
    var s' := Apply(cap, s, step);
    var u := s'.tunnels[step.t];
    ShapeKeeps(cap, s, s', step.t, u, EffectOf(step, u));
  }

  lemma ShapeKeeps(cap: int, s: System, s': System, t: nat, u: Tunnel, effect: Effect)
    requires Inv(cap, s) && Fits(cap, s, t, u, effect)
    requires s' == s.(registry := Touch(s.registry, u, t, effect), tunnels := s.tunnels[t := u])
    ensures Inv(cap, s')
  {
    forall session ensures Count(s'.registry, session) == |Holders(s', session)| <= cap {
      CountKept(cap, s, t, u, effect, session);
      assert Holders(s', session) == Holders(s.(tunnels := s.tunnels[t := u]), session);
    }
    CountsStayPositive(s.registry, u, t, effect);
    RegistryKept(cap, s, t, u, effect);
    forall v | v in s'.tunnels ensures TunnelOk(s', v) {
      TunnelKept(cap, s, t, u, effect, v);
    }
  }

  lemma CountsStayPositive(r: Registry, u: Tunnel, t: nat, effect: Effect)
    requires forall session :: session in r.counts ==> r.counts[session] >= 1
    ensures forall session :: session in Touch(r, u, t, effect).counts ==> Touch(r, u, t, effect).counts[session] >= 1
  {
  }

  lemma CancelAllKeeps(cap: int, s: System, step: Step)
    requires Inv(cap, s) && Enabled(s, step) && (step.PopTracked? || step.HubShutdown?)
    ensures Inv(cap, Apply(cap, s, step))
  {
    var s' := Apply(cap, s, step);
    forall session ensures Count(s'.registry, session) == |Holders(s', session)| <= cap {
      assert Holders(s', session) == Holders(s, session);
      assert Count(s.registry, session) == |Holders(s, session)| <= cap;
    }
    assert RegistryOk(s') by {
      forall device, t | t in Members(s'.registry.tasks, device)
        ensures t in s'.tunnels && s'.tunnels[t].device == device && Tracks(s'.tunnels[t].pc)
      {
        assert t in Members(s.registry.tasks, device);
      }
      assert s.registry.websockets == s.registry.tasks;
    }
    forall t | t in s'.tunnels ensures TunnelOk(s', t) {
      assert TunnelOk(s, t);
    }
  }

  lemma StepKeeps(cap: int, s: System, step: Step)
    requires Inv(cap, s) && Enabled(s, step)
    ensures Inv(cap, Apply(cap, s, step))
  {
    if MovesTunnel(step) {
      TunnelStepKeeps(cap, s, step);
    } else if step.PopTracked? || step.HubShutdown? {
      CancelAllKeeps(cap, s, step);
    } else {
      var s' := Apply(cap, s, step);
      forall session ensures Count(s'.registry, session) == |Holders(s', session)| <= cap {
        assert Holders(s', session) == Holders(s, session);
        assert Count(s.registry, session) == |Holders(s, session)| <= cap;
      }
      forall t | t in s'.tunnels ensures TunnelOk(s', t) {
        assert TunnelOk(s, t);
      }
    }
  }

  function Next(cap: int, s: System, step: Step): System {
    if Enabled(s, step) then Apply(cap, s, step) else s
  }

  /** The state after a run. */
  function Exec(cap: int, steps: seq<Step>): System {
    if steps == [] then START else Next(cap, Exec(cap, steps[..|steps|-1]), steps[|steps|-1])
  }

  lemma {:induction false} RunKeeps(cap: int, steps: seq<Step>)
    requires 0 <= cap
    ensures Inv(cap, Exec(cap, steps))
  {
    if steps == [] {
      forall session ensures Count(START.registry, session) == |Holders(START, session)| {
        assert Holders(START, session) == {};
      }
    } else {
      var before := Exec(cap, steps[..|steps|-1]);
      RunKeeps(cap, steps[..|steps|-1]);
      if Enabled(before, steps[|steps|-1]) {
        StepKeeps(cap, before, steps[|steps|-1]);
      }
    }
  }

  // ---------- Main results, each for every run ----------

  /** Once a revoke has popped the device's tunnels, one that is being accepted or is relaying
      has already been cancelled, and so has one that passed either re-check. */
  lemma NoLiveTunnelAfterPop(cap: int, steps: seq<Step>, t: nat)
    requires 0 <= cap
    requires var s := Exec(cap, steps); t in s.tunnels && s.tunnels[t].device in s.popped
    ensures var u := Exec(cap, steps).tunnels[t];
      (u.pc == FirstRead(Yes) || u.pc == Connecting || u.pc == Rechecking || u.pc.SecondRead? || u.pc == Accepting || u.pc == Relaying)
      ==> u.cancelled
  {
    RunKeeps(cap, steps);
    assert TunnelOk(Exec(cap, steps), t);
  }

  /** ... and no tunnel of the device is accepted from then on. */
  lemma NothingAcceptedAfterPop(cap: int, steps: seq<Step>, step: Step, t: nat)
    requires 0 <= cap
    requires var s := Exec(cap, steps); t in s.tunnels && s.tunnels[t].device in s.popped
    ensures var s := Exec(cap, steps); var s' := Next(cap, s, step);
      && t in s'.tunnels
      && (s'.tunnels[t].pc == Accepting || s'.tunnels[t].pc == Relaying ==> s'.tunnels[t].pc == s.tunnels[t].pc)
  {
    RunKeeps(cap, steps);
    assert TunnelOk(Exec(cap, steps), t);
  }

  /** A session's counter is the number of its tunnels that hold a slot, and within the cap. */
  lemma CounterIsHolders(cap: int, steps: seq<Step>, session: nat)
    requires 0 <= cap
    ensures var s := Exec(cap, steps); Count(s.registry, session) == |Holders(s, session)| <= cap
  {
    RunKeeps(cap, steps);
  }

  ghost predicate Over(s: System, session: nat) {
    forall t :: t in s.tunnels && s.tunnels[t].session == session ==>
      s.tunnels[t].pc == Left || s.tunnels[t].pc == Rejected || s.tunnels[t].pc == Lost
  }

  /** The step that makes tunnel `t` end without releasing its slot: it is cancelled before it is
      tracked, its first re-check fails or raises while `agent` is unbound, or a cancellation lands
      there or inside `finally`. */
  predicate LosesSlot(s: System, step: Step, t: nat) {
    && Enabled(s, step) && t in s.tunnels
    && (step == CancelUntracked(t)
        || (step == FirstAnswer(t) && s.tunnels[t].pc != FirstRead(Yes))
        || (step == CancelLands(t) && SkipsRelease(s.tunnels[t].pc)))
  }

  predicate IsAt(s: System, t: nat, pc: Pc) {
    t in s.tunnels && s.tunnels[t].pc == pc
  }

  ghost predicate LostAt(cap: int, steps: seq<Step>, k: nat, t: nat) {
    k < |steps| && LosesSlot(Exec(cap, steps[..k]), steps[k], t)
  }

  lemma LostStepByStep(cap: int, s: System, step: Step, t: nat)
    ensures IsAt(Next(cap, s, step), t, Lost) <==> IsAt(s, t, Lost) || LosesSlot(s, step, t)
  {
  }

  /** Over a whole run: a tunnel ends without releasing if and only if such a step was taken. */
  lemma {:induction false} LostExactlyWhen(cap: int, steps: seq<Step>, t: nat)
    ensures IsAt(Exec(cap, steps), t, Lost) <==> exists k: nat :: LostAt(cap, steps, k, t)
  {
    if steps == [] {
      assert forall k: nat :: !LostAt(cap, steps, k, t);
    } else {
      var n := |steps| - 1;
      LostExactlyWhen(cap, steps[..n], t);
      LostStepByStep(cap, Exec(cap, steps[..n]), steps[n], t);
      forall k: nat ensures LostAt(cap, steps, k, t) <==> LostAt(cap, steps[..n], k, t) || (k == n && LosesSlot(Exec(cap, steps[..n]), steps[n], t)) {
        assert k < n ==> steps[..n][..k] == steps[..k];
      }
      if LosesSlot(Exec(cap, steps[..n]), steps[n], t) {
        assert LostAt(cap, steps, n, t);
      }
      if k: nat :| LostAt(cap, steps[..n], k, t) {
        assert LostAt(cap, steps, k, t);
      }
    }
  }

  /** When a session's tunnels are all over, its counter is gone if and only if no step of the run
      made one of them lose its slot. */
  lemma SlotsComeBackUnlessLost(cap: int, steps: seq<Step>, session: nat)
    requires 0 <= cap
    ensures var s := Exec(cap, steps);
      (forall t :: t in s.tunnels && s.tunnels[t].session == session ==>
        s.tunnels[t].pc == Left || s.tunnels[t].pc == Rejected || s.tunnels[t].pc == Lost) ==>
        (session !in s.registry.counts <==>
         !exists t, k: nat :: t in s.tunnels && s.tunnels[t].session == session && LostAt(cap, steps, k, t))
  {
    RunKeeps(cap, steps);
    var s := Exec(cap, steps);
    if Over(s, session) {
      assert Count(s.registry, session) == |Holders(s, session)|;
      forall t ensures t in Holders(s, session) <==> t in s.tunnels && s.tunnels[t].session == session && exists k: nat :: LostAt(cap, steps, k, t) {
        LostExactlyWhen(cap, steps, t);
      }
      if t, k: nat :| t in s.tunnels && s.tunnels[t].session == session && LostAt(cap, steps, k, t) {
        assert t in Holders(s, session);
      } else {
        assert Holders(s, session) == {};
      }
    }
  }

  /** A device is revoked just before a tunnel's first re-check reads the database. */
  const UNTIL_TRACKED := [NewSession(7, 1), Arrive(0, 7, 1), ReserveSlot(0), TrackTunnel(0)]
  const LOSING_RUN := UNTIL_TRACKED + [CommitRevoke(1), ReadFirst(0, false), FirstAnswer(0)]

  lemma ValidatedThere()
    ensures Exec(4, [NewSession(7, 1)] + [Arrive(0, 7, 1)]) ==
      System(EMPTY, map[0 := Tunnel(7, 1, Validated, false)], map[7 := Session(1, true)], {}, {})
  {
    Extend(4, [], NewSession(7, 1));
    Extend(4, [NewSession(7, 1)], Arrive(0, 7, 1));
  }

  lemma TrackedThere()
    ensures var s := Exec(4, UNTIL_TRACKED);
      s.registry.counts == map[7 := 1] && s.tunnels == map[0 := Tunnel(7, 1, Tracked, false)] && s.sessions == map[7 := Session(1, true)]
  {
    var run2 := [NewSession(7, 1)] + [Arrive(0, 7, 1)];
    var run3 := run2 + [ReserveSlot(0)];
    ValidatedThere();
    Extend(4, run2, ReserveSlot(0));
    Extend(4, run3, TrackTunnel(0));
    assert UNTIL_TRACKED == run3 + [TrackTunnel(0)];
  }

  /** In that run every tunnel of the session is over, and its slot never comes back. */
  lemma AFailedFirstRecheckKeepsItsSlot()
    ensures var s := Exec(4, LOSING_RUN); Over(s, 7) && s.registry.counts == map[7 := 1]
  {
    TrackedThere();
    var r1 := UNTIL_TRACKED + [CommitRevoke(1)];
    var r2 := r1 + [ReadFirst(0, false)];
    Extend(4, UNTIL_TRACKED, CommitRevoke(1));
    Extend(4, r1, ReadFirst(0, false));
    Extend(4, r2, FirstAnswer(0));
    assert LOSING_RUN == r2 + [FirstAnswer(0)];
  }

  lemma Extend(cap: int, steps: seq<Step>, step: Step)
    ensures Exec(cap, steps + [step]) == Next(cap, Exec(cap, steps), step)
  {
    assert (steps + [step])[..|steps|] == steps;
  }
}
