/**
 Every interleaving of opening, revoking, deleting, expiring and serving raw TCP relays. One
 step is what one task does from one wait to the next; a run is any sequence of steps, and a
 step that is not enabled leaves the state as it is. Requests that open or close a relay hold
 two locks: the device's own lock, and the manager's lock.
 */
module RelayAccess {
  import opened Options
  import opened TcpRelaySpec

  datatype DeviceStatus = Active | Revoked | Deleted

  datatype Role = Open | Revoke | Delete

  datatype Pc =
    | Asked                      // a revoke that waits for the peer removal, not yet committed
    | WantDeviceLock
    | WantDetach                 // holds the device lock, wants the manager lock to detach
    | Draining(ids: set<nat>)    // holds the device lock, waits for the shutdown of `ids`
    | WantManagerLock            // holds the device lock, wants to create
    | Creating                   // holds both locks, trying ports
    | Serving(id: nat)           // holds both locks, relay published, waits in start_serving
    | Recheck(id: nat)           // holds no lock, about to read the database again
    | Undo(id: nat)              // the re-check failed; wants the manager lock to close again
    | GaveUp(id: nat)            // cancelled before it could close again
    | Opened(id: nat)
    | Refused
    | Closed

  datatype Request = Request(role: Role, device: nat, pc: Pc)

  datatype HandlerPc = Connecting | Forwarding | ClosingUpstream | ClosingDownstream | Gone

  datatype Handler = Handler(relay: nat, admitted: bool, pc: HandlerPc, cancelled: bool)

  datatype System = System(
    m: Manager,
    detachLog: multiset<nat>,        // every detach ever made
    snapped: set<nat>,               // relays whose shutdown has taken its snapshot
    byShutdown: set<nat>,            // relays detached when the Hub shuts down
    orphans: set<nat>,               // relays whose request was cancelled before their shutdown began
    handlers: map<nat, Handler>,
    devices: map<nat, DeviceStatus>, // the committed rows
    deviceLocks: map<nat, nat>,      // who holds each device's lock
    managerLock: Option<nat>,
    requests: map<nat, Request>)

  datatype Config = Config(portMin: int, portMax: int, maxConnections: int)

  datatype Step =
    | Enroll(device: nat)
    | DeleteWithCompany(device: nat)   // the device goes with its company; nobody closes anything
    | Arrive(p: nat, role: Role, device: nat)
    | CommitRevoke(p: nat)
    | LockDevice(p: nat)
    | DetachDevice(p: nat)
    | Drained(p: nat)
    | LockManager(p: nat)
    | PublishRelay(p: nat, a: Allocation)
    | NoPort(p: nat)
    | ServingStarted(p: nat)
    | ServingFails(p: nat)
    | RecheckDevice(p: nat, committed: bool)
    | UndoOpen(p: nat)
    | CancelRequest(p: nat)
    | Expire(id: nat)
    | CloseAll
    | Snapshot(id: nat)
    | AcceptClient(t: nat, id: nat, peerAllowed: bool)
    | UpstreamResult(t: nat, connected: bool)
    | ForwardingEnds(t: nat)
    | UpstreamClosed(t: nat)
    | DownstreamClosed(t: nat)
    | CancelLands(t: nat)

  const START := System(EMPTY, multiset{}, {}, {}, {}, map[], map[], map[], None, map[])

  predicate DeviceOk(s: System, device: nat) {
    device in s.devices && s.devices[device] == Active
  }

  function SetPc(s: System, p: nat, pc: Pc): System
    requires p in s.requests
  {
    s.(requests := s.requests[p := s.requests[p].(pc := pc)])
  }

  function SetHandler(s: System, t: nat, h: Handler, r: Relay): System
    requires h.relay < |s.m.objects|
  {
    s.(handlers := s.handlers[t := h], m := Update(s.m, h.relay, r))
  }

  function DetachAll(s: System, ids: set<nat>): System
    requires forall id :: id in ids ==> id < |s.m.objects|
  {
    s.(m := DetachSet(s.m, ids), detachLog := s.detachLog + multiset(ids))
  }

  /** The first, uninterrupted part of `_shutdown_relay`: every task of the relays is cancelled. */
  function SnapshotAll(s: System, ids: set<nat>): System {
    s.(snapped := s.snapped + ids,
       handlers := map t | t in s.handlers ::
         if s.handlers[t].relay in ids && s.handlers[t].relay < |s.m.objects| && t in s.m.objects[s.handlers[t].relay].tasks
         then s.handlers[t].(cancelled := true) else s.handlers[t])
  }

  /** Detach, and begin the shutdown without a wait in between. */
  function CloseNow(s: System, ids: set<nat>): System
    requires forall id :: id in ids ==> id < |s.m.objects|
  {
    SnapshotAll(DetachAll(s, ids), ids)
  }

  predicate HoldsDevice(pc: Pc) {
    pc.WantDetach? || pc.Draining? || pc.WantManagerLock? || pc.Creating? || pc.Serving?
  }

  predicate HoldsManager(pc: Pc) {
    pc.Creating? || pc.Serving?
  }

  /** Request `p` ends and leaves every lock it holds. */
  function Leave(s: System, p: nat, pc: Pc): System
    requires p in s.requests
  {
    var was := s.requests[p].pc;
    SetPc(s.(deviceLocks := if HoldsDevice(was) then s.deviceLocks - {s.requests[p].device} else s.deviceLocks,
             managerLock := if HoldsManager(was) then None else s.managerLock), p, pc)
  }

  /** Where a request that is waiting can be cancelled. */
  predicate Waits(pc: Pc) {
    pc.Asked? || pc.WantDeviceLock? || pc.WantDetach? || pc.Draining? || pc.WantManagerLock? || pc.Creating? || pc.Undo?
  }

  /** The handler of task `t` exists; its relay always does too, in every reachable state. */
  predicate HasHandler(s: System, t: nat) {
    t in s.handlers && s.handlers[t].relay < |s.m.objects|
  }

  predicate Enabled(c: Config, s: System, step: Step)
  {
    match step
    case Enroll(device) => device !in s.devices
    case DeleteWithCompany(device) => device in s.devices
    case Arrive(p, _, _) => p !in s.requests
    case CommitRevoke(p) => p in s.requests && s.requests[p].pc.Asked?
    case LockDevice(p) => p in s.requests && s.requests[p].pc.WantDeviceLock? && s.requests[p].device !in s.deviceLocks
    case DetachDevice(p) => p in s.requests && s.requests[p].pc.WantDetach? && s.managerLock.None?
    case Drained(p) => p in s.requests && s.requests[p].pc.Draining? && s.requests[p].pc.ids <= s.snapped
    case LockManager(p) => p in s.requests && s.requests[p].pc.WantManagerLock? && s.managerLock.None?
    case PublishRelay(p, a) =>
      && p in s.requests && s.requests[p].pc.Creating?
      && a.device == s.requests[p].device && c.portMin <= a.port <= c.portMax && a.port !in s.m.relays
    case NoPort(p) => p in s.requests && s.requests[p].pc.Creating?
    case ServingStarted(p) => p in s.requests && s.requests[p].pc.Serving?
    case ServingFails(p) => p in s.requests && s.requests[p].pc.Serving? && s.requests[p].pc.id < |s.m.objects|
    case CancelRequest(p) => p in s.requests && Waits(s.requests[p].pc)
    case RecheckDevice(p, _) => p in s.requests && s.requests[p].pc.Recheck?
    case UndoOpen(p) => p in s.requests && s.requests[p].pc.Undo? && s.managerLock.None? && s.requests[p].pc.id < |s.m.objects|
    case Expire(id) => id < |s.m.objects| && s.managerLock.None?
    case CloseAll => s.managerLock.None?
    case Snapshot(id) => id < |s.m.objects| && s.m.objects[id].closing && id !in s.snapped && id !in s.orphans
    case AcceptClient(t, id, _) => t !in s.handlers && id < |s.m.objects|
    case UpstreamResult(t, _) => HasHandler(s, t) && s.handlers[t].pc.Connecting?
    case ForwardingEnds(t) => HasHandler(s, t) && s.handlers[t].pc.Forwarding? && !s.handlers[t].cancelled
    case UpstreamClosed(t) => HasHandler(s, t) && s.handlers[t].pc.ClosingUpstream?
    case DownstreamClosed(t) => HasHandler(s, t) && s.handlers[t].pc.ClosingDownstream?
    case CancelLands(t) => HasHandler(s, t) && s.handlers[t].cancelled && !s.handlers[t].pc.Gone?
  }

  predicate MovesHandler(step: Step) {
    step.AcceptClient? || step.UpstreamResult? || step.ForwardingEnds? || step.UpstreamClosed?
    || step.DownstreamClosed? || step.CancelLands?
  }

  /** One section of `_handle_client`: the handler afterwards, and its relay. */
  function HandlerMove(c: Config, s: System, step: Step): ((Handler, Relay))
    requires MovesHandler(step) && Enabled(c, s, step)
  {
    if step.AcceptClient? then
      var r := s.m.objects[step.id];
      var admitted := Admits(r, step.peerAllowed, c.maxConnections);
      (Handler(step.id, admitted, if admitted then Connecting else ClosingDownstream, false),
       Admit(r, step.t, step.peerAllowed, c.maxConnections))
    else
      var h := s.handlers[step.t];
      var r := s.m.objects[h.relay];
      match step
      case UpstreamResult(t, connected) =>
        if !connected then (h.(pc := ClosingDownstream), DropDownstream(r, t))
        else if r.closing then (h.(pc := ClosingUpstream), DropUpstream(r, t))
        else (h.(pc := Forwarding), StartForwarding(r, t))
      case ForwardingEnds(t) => (h.(pc := ClosingUpstream), DropUpstream(r, t))
      case UpstreamClosed(t) => (h.(pc := ClosingDownstream), DropDownstream(r, t))
      case DownstreamClosed(t) => (h.(pc := Gone), Release(r, t, h.admitted))
      case CancelLands(t) =>
        if h.pc.Connecting? then (h.(pc := ClosingDownstream), DropDownstream(r, t))
        else if h.pc.Forwarding? then (h.(pc := ClosingUpstream), DropUpstream(r, t))
        else (h.(pc := Gone), r)  // lands inside `finally`: the rest of it is skipped
  }

  function Apply(c: Config, s: System, step: Step): System
    requires Consistent(s.m) && Enabled(c, s, step)
  {
    match step
    case Enroll(device) => s.(devices := s.devices[device := Active])
    case DeleteWithCompany(device) => s.(devices := s.devices[device := Deleted])
    case Arrive(p, role, device) =>
      (match role
       case Open =>
         s.(requests := s.requests[p := Request(role, device, if DeviceOk(s, device) then WantDeviceLock else Refused)])
       case Revoke =>
         s.(requests := s.requests[p := Request(role, device, if DeviceOk(s, device) then Asked else Refused)])
       case Delete =>
         if device in s.devices && s.devices[device] == Revoked then
           s.(requests := s.requests[p := Request(role, device, WantDeviceLock)], devices := s.devices[device := Deleted])
         else
           s.(requests := s.requests[p := Request(role, device, Refused)]))
    case CommitRevoke(p) =>
      var device := s.requests[p].device;
      SetPc(s.(devices := if DeviceOk(s, device) then s.devices[device := Revoked] else s.devices), p, WantDeviceLock)
    case LockDevice(p) =>
      SetPc(s.(deviceLocks := s.deviceLocks[s.requests[p].device := p]), p, WantDetach)
    case DetachDevice(p) =>
      var ids := LiveOf(s.m, s.requests[p].device);
      SetPc(DetachAll(s, ids), p, Draining(ids))
    case Drained(p) =>
      if s.requests[p].role == Open
      then SetPc(s, p, WantManagerLock)
      else Leave(s, p, Closed)
    case LockManager(p) => SetPc(s.(managerLock := Some(p)), p, Creating)
    case PublishRelay(p, a) => SetPc(s.(m := Publish(s.m, a)), p, Serving(|s.m.objects|))
    case NoPort(p) => Leave(s, p, Refused)
    case ServingStarted(p) => Leave(s, p, Recheck(s.requests[p].pc.id))
    case ServingFails(p) => Leave(s.(m := Withdraw(s.m, s.requests[p].pc.id)), p, Refused)
    case RecheckDevice(p, committed) =>
      var id := s.requests[p].pc.id;
      SetPc(s, p, if DeviceOk(s, s.requests[p].device) && committed then Opened(id) else Undo(id))
    case UndoOpen(p) =>
      SetPc(CloseNow(s, MatchAllocation(s.m, s.m.objects[s.requests[p].pc.id].allocation)), p, Refused)
    case CancelRequest(p) =>
      (match s.requests[p].pc
       case Undo(id) => SetPc(s, p, GaveUp(id))
       case Draining(ids) => Leave(s.(orphans := s.orphans + (ids - s.snapped)), p, Refused)
       case _ => Leave(s, p, Refused))
    case Expire(id) => CloseNow(s, MatchIdentity(s.m, id))
    case CloseAll => DetachAll(s, AllLive(s.m)).(byShutdown := s.byShutdown + AllLive(s.m))
    case Snapshot(id) => SnapshotAll(s, {id})
    case _ =>
      var (h, r) := HandlerMove(c, s, step);
      SetHandler(s, step.t, h, r)
  }

  // ---------- What every step keeps ----------

  ghost predicate ManagerInv(c: Config, s: System) {
    && Consistent(s.m)
    && (forall id :: 0 <= id < |s.m.objects| ==> c.portMin <= s.m.objects[id].allocation.port <= c.portMax)
    && (forall id: nat :: s.detachLog[id] == if id < |s.m.objects| && s.m.objects[id].closing then 1 else 0)
    && (forall id :: id in s.snapped ==> id < |s.m.objects| && s.m.objects[id].closing)
  }

  /** The handlers of a relay that passed admission and have not finished. */
  ghost function InFlight(s: System, id: nat): set<nat> {
    set t | t in s.handlers && s.handlers[t].relay == id && s.handlers[t].admitted && !s.handlers[t].pc.Gone?
  }

  ghost predicate HandlerOk(s: System, t: nat)
    requires t in s.handlers && s.handlers[t].relay < |s.m.objects|
  {
    var h := s.handlers[t];
    var r := s.m.objects[h.relay];
    && (h.cancelled ==> r.closing && h.relay in s.snapped)
    && (h.pc.Forwarding? && h.relay in s.snapped ==> h.cancelled)
    && (h.pc.Connecting? || h.pc.Forwarding? || h.pc.ClosingUpstream? ==> h.admitted)
    && (h.pc.Connecting? || h.pc.Forwarding? ==> t in r.tasks && Downstream(t) in r.writers)
    && (h.pc.Forwarding? ==> Upstream(t) in r.writers)
    && (!r.closing ==> (t in r.tasks <==> !h.pc.Gone?))
  }

  ghost predicate CountOk(c: Config, s: System, id: nat)
    requires id < |s.m.objects|
  {
    var r := s.m.objects[id];
    && |InFlight(s, id)| <= r.active <= c.maxConnections
    && (!r.closing ==> r.active == |InFlight(s, id)|)
  }

  ghost predicate HandlerInv(c: Config, s: System) {
    && (forall t :: t in s.handlers ==> s.handlers[t].relay < |s.m.objects| && HandlerOk(s, t))
    && (forall id, t :: 0 <= id < |s.m.objects| && t in s.m.objects[id].tasks ==>
          t in s.handlers && s.handlers[t].relay == id)
    && (forall id :: 0 <= id < |s.m.objects| ==> CountOk(c, s, id))
  }

  predicate Names(pc: Pc, id: nat) {
    (pc.Serving? || pc.Recheck? || pc.Undo? || pc.GaveUp? || pc.Opened?) && pc.id == id
  }

  ghost predicate LockInv(s: System) {
    && (forall p :: p in s.requests && HoldsDevice(s.requests[p].pc) ==>
          s.requests[p].device in s.deviceLocks && s.deviceLocks[s.requests[p].device] == p)
    && (forall d :: d in s.deviceLocks ==>
          s.deviceLocks[d] in s.requests && s.requests[s.deviceLocks[d]].device == d && HoldsDevice(s.requests[s.deviceLocks[d]].pc))
    && (forall p :: p in s.requests && HoldsManager(s.requests[p].pc) ==> s.managerLock == Some(p))
    && (s.managerLock.Some? ==> s.managerLock.value in s.requests && HoldsManager(s.requests[s.managerLock.value].pc))
  }

  ghost predicate LiveFor(s: System, id: nat, device: nat) {
    Live(s.m, id) && s.m.objects[id].allocation.device == device
  }

  ghost predicate RequestOk(s: System, p: nat)
    requires p in s.requests
  {
    var r := s.requests[p];
    && (forall id: nat :: Names(r.pc, id) ==> id < |s.m.objects| && s.m.objects[id].allocation.device == r.device)
    && (r.pc.WantManagerLock? || r.pc.Creating? || r.pc.Serving? || r.pc.Recheck? || r.pc.Undo? || r.pc.GaveUp? || r.pc.Opened? ==> r.role == Open)
    && (r.pc.Serving? ==> Live(s.m, r.pc.id))
    && (r.pc.Closed? || r.pc.Asked? ==> r.role != Open)
    && (r.role != Open && !r.pc.Asked? && !r.pc.Refused? ==> r.device in s.devices && s.devices[r.device] != Active)
    && (r.pc.Asked? ==> r.device in s.devices)
    && (r.pc.Undo? ==> r.pc.id < |s.m.objects|)
    && (r.pc.Draining? || r.pc.WantManagerLock? || r.pc.Creating? ==> forall id: nat :: !LiveFor(s, id, r.device))
  }

  ghost predicate OwnedBy(s: System, id: nat, p: nat) {
    id < |s.m.objects| && p in s.requests
    && s.requests[p].device == s.m.objects[id].allocation.device && Names(s.requests[p].pc, id)
  }

  /** `p` has closed the device's relays after `q` reported one open. */
  ghost predicate Swept(s: System, p: nat, q: nat)
    requires p in s.requests && q in s.requests
  {
    s.requests[p].pc.Closed? && s.requests[q].pc.Opened? && s.requests[p].device == s.requests[q].device
  }

  ghost predicate RequestInv(s: System) {
    && (forall p :: p in s.requests ==> RequestOk(s, p))
    && (forall id: nat :: Live(s.m, id) ==> exists p: nat :: OwnedBy(s, id, p))
    && (forall i: nat, j: nat :: Live(s.m, i) && Live(s.m, j) && s.m.objects[i].allocation.device == s.m.objects[j].allocation.device ==> i == j)
    && (forall p, q :: p in s.requests && q in s.requests && Swept(s, p, q) ==> !Live(s.m, s.requests[q].pc.id))
  }

  ghost predicate CoreInv(c: Config, s: System) {
    ManagerInv(c, s) && HandlerInv(c, s) && LockInv(s) && RequestInv(s)
  }

  ghost predicate ConfigOk(c: Config) {
    1 <= c.portMin <= c.portMax <= 65535 && 1 <= c.maxConnections
  }

  // ---------- Detaching ----------

  /** No request is serving while nobody holds the manager lock. */
  lemma NobodyServes(s: System)
    requires LockInv(s) && s.managerLock.None?
    ensures forall p :: p in s.requests ==> !s.requests[p].pc.Serving?
  {
  }

  lemma DetachAllKeeps(c: Config, s: System, ids: set<nat>)
    requires CoreInv(c, s) && ids <= AllLive(s.m) && s.managerLock.None?
    ensures forall id :: id in ids ==> id < |s.m.objects|
    ensures CoreInv(c, DetachAll(s, ids))
    ensures forall id: nat :: Live(DetachAll(s, ids).m, id) <==> Live(s.m, id) && id !in ids
    ensures forall id :: id in ids ==> DetachAll(s, ids).m.objects[id].closing
  {
    DetachSetConsistent(s.m, ids);
    LiveIsMapped(s.m, ids);
    var d := DetachAll(s, ids);
    assert ManagerInv(c, d);
    DetachKeepsHandlers(c, s, ids);
    assert LockInv(d);
    NobodyServes(s);
    FewerLive(s, d);
  }

  lemma DetachKeepsHandlers(c: Config, s: System, ids: set<nat>)
    requires HandlerInv(c, s) && forall id :: id in ids ==> id < |s.m.objects| && Live(s.m, id)
    ensures HandlerInv(c, DetachAll(s, ids))
  {
    var d := DetachAll(s, ids);
    forall t | t in d.handlers ensures d.handlers[t].relay < |d.m.objects| && HandlerOk(d, t) {
      assert HandlerOk(s, t);
    }
    forall id | 0 <= id < |d.m.objects| ensures CountOk(c, d, id) {
      assert CountOk(c, s, id);
      assert InFlight(d, id) == InFlight(s, id);
    }
  }

  /** Requests stay where they are, and no relay becomes live. */
  lemma FewerLive(s: System, s': System)
    requires RequestInv(s) && s'.requests == s.requests && s'.devices == s.devices
    requires |s'.m.objects| == |s.m.objects|
    requires forall id: nat :: id < |s.m.objects| ==> s'.m.objects[id].allocation == s.m.objects[id].allocation
    requires forall id: nat :: Live(s'.m, id) ==> Live(s.m, id)
    requires forall p :: p in s.requests && s.requests[p].pc.Serving? ==> Live(s'.m, s.requests[p].pc.id)
    ensures RequestInv(s')
  {
    forall p | p in s'.requests ensures RequestOk(s', p) {
      assert RequestOk(s, p);
      forall id: nat | LiveFor(s', id, s.requests[p].device) ensures LiveFor(s, id, s.requests[p].device) {}
    }
    forall id: nat | Live(s'.m, id) ensures exists p: nat :: OwnedBy(s', id, p) {
      assert Live(s.m, id);
      var p: nat :| OwnedBy(s, id, p);
      assert OwnedBy(s', id, p);
    }
    forall p, q | p in s'.requests && q in s'.requests && Swept(s', p, q) ensures !Live(s'.m, s'.requests[q].pc.id) {
      assert Swept(s, p, q);
    }
  }

  /** The server of a published relay did not start: the relay is withdrawn by its own request. */
  lemma WithdrawKeeps(c: Config, s: System, p: nat)
    requires CoreInv(c, s) && Enabled(c, s, ServingFails(p))
    ensures CoreInv(c, Apply(c, s, ServingFails(p)))
  {
    var id := s.requests[p].pc.id;
    var s' := Apply(c, s, ServingFails(p));
    assert RequestOk(s, p);
    WithdrawConsistent(s.m, id);
    WithdrawKeepsManager(c, s, p);
    WithdrawKeepsHandlers(c, s, s');
    LocksMove(s, s', p);
    WithdrawKeepsRequests(s, s', p);
  }

  lemma WithdrawKeepsManager(c: Config, s: System, p: nat)
    requires ManagerInv(c, s) && Enabled(c, s, ServingFails(p)) && Live(s.m, s.requests[p].pc.id)
    ensures ManagerInv(c, Apply(c, s, ServingFails(p)))
  {
    WithdrawConsistent(s.m, s.requests[p].pc.id);
  }

  lemma WithdrawKeepsHandlers(c: Config, s: System, s': System)
    requires HandlerInv(c, s) && s'.handlers == s.handlers && s'.m.objects == s.m.objects && s'.snapped == s.snapped
    ensures HandlerInv(c, s')
  {
    forall t | t in s'.handlers ensures s'.handlers[t].relay < |s'.m.objects| && HandlerOk(s', t) {
      assert HandlerOk(s, t);
    }
    forall id | 0 <= id < |s'.m.objects| ensures CountOk(c, s', id) {
      assert CountOk(c, s, id);
      assert InFlight(s', id) == InFlight(s, id);
    }
  }

  lemma WithdrawKeepsRequests(s: System, s': System, p: nat)
    requires RequestInv(s) && LockInv(s) && p in s.requests && s.requests[p].pc.Serving?
    requires s'.requests == s.requests[p := s.requests[p].(pc := Refused)] && s'.devices == s.devices
    requires s'.m.objects == s.m.objects
    requires forall id: nat :: Live(s'.m, id) <==> Live(s.m, id) && id != s.requests[p].pc.id
    ensures RequestInv(s')
  {
    forall q | q in s'.requests ensures RequestOk(s', q) {
      assert RequestOk(s, q);
      forall id: nat | LiveFor(s', id, s.requests[q].device) ensures LiveFor(s, id, s.requests[q].device) {}
      assert HoldsManager(s.requests[p].pc) && (HoldsManager(s.requests[q].pc) ==> s.managerLock == Some(q));
    }
    forall id: nat | Live(s'.m, id) ensures exists q: nat :: OwnedBy(s', id, q) {
      var q: nat :| OwnedBy(s, id, q);
      assert OwnedBy(s', id, q);
    }
    forall q, r | q in s'.requests && r in s'.requests && Swept(s', q, r) ensures !Live(s'.m, s'.requests[r].pc.id) {
      assert Swept(s, q, r);
    }
  }

  lemma LiveOfIsLive(s: System, device: nat)
    requires Consistent(s.m)
    ensures LiveOf(s.m, device) <= AllLive(s.m)
    ensures forall id: nat :: id in LiveOf(s.m, device) <==> LiveFor(s, id, device)
  {
    forall id: nat | LiveFor(s, id, device) ensures id in LiveOf(s.m, device) {
      assert s.m.objects[id].allocation.port in s.m.relays;
    }
  }

  // ---------- One request moves ----------

  ghost predicate StatusesAdvance(s: System, s': System) {
    forall d :: d in s.devices ==> d in s'.devices && (s.devices[d] != Active ==> s'.devices[d] != Active)
  }

  /** A request changes its own program counter and no relay changes. */
  lemma RequestMoves(s: System, s': System, p: nat)
    requires RequestInv(s) && StatusesAdvance(s, s') && s'.m == s.m
    requires p in s'.requests && s'.requests == s.requests[p := s'.requests[p]]
    requires RequestOk(s', p)
    requires p in s.requests ==> s'.requests[p].device == s.requests[p].device
    requires p in s.requests ==> forall id: nat :: Live(s.m, id) && Names(s.requests[p].pc, id) ==> Names(s'.requests[p].pc, id)
    requires s'.requests[p].pc.Closed? ==> forall id: nat :: !LiveFor(s, id, s'.requests[p].device)
    requires s'.requests[p].pc.Opened? ==> DeviceOk(s', s'.requests[p].device)
    ensures RequestInv(s')
  {
    forall q | q in s'.requests ensures RequestOk(s', q) {
      if q != p {
        assert RequestOk(s, q);
        forall id: nat | LiveFor(s', id, s.requests[q].device) ensures LiveFor(s, id, s.requests[q].device) {}
      }
    }
    forall id: nat | Live(s'.m, id) ensures exists q: nat :: OwnedBy(s', id, q) {
      var q: nat :| OwnedBy(s, id, q);
      assert OwnedBy(s', id, q);
    }
    forall q, r | q in s'.requests && r in s'.requests && Swept(s', q, r) ensures !Live(s'.m, s'.requests[r].pc.id) {
      assert RequestOk(s', q) && RequestOk(s', r);
      if q != p && r != p {
        assert Swept(s, q, r);
      } else if q == p {
        var id := s'.requests[r].pc.id;
        assert Names(s'.requests[r].pc, id);
        assert !LiveFor(s, id, s'.requests[p].device);
      }
    }
  }

  /** Only locks, statuses and one request change. */
  lemma QuietStepKeeps(c: Config, s: System, s': System)
    requires ManagerInv(c, s) && HandlerInv(c, s)
    requires s'.m == s.m && s'.handlers == s.handlers && s'.snapped == s.snapped && s'.detachLog == s.detachLog
    ensures ManagerInv(c, s') && HandlerInv(c, s')
  {
    forall t | t in s'.handlers ensures s'.handlers[t].relay < |s'.m.objects| && HandlerOk(s', t) {
      assert HandlerOk(s, t);
    }
    forall id | 0 <= id < |s'.m.objects| ensures CountOk(c, s', id) {
      assert CountOk(c, s, id);
      assert InFlight(s', id) == InFlight(s, id);
    }
  }

  /** One request moves without a lock changing hands. */
  lemma LocksUntouched(s: System, s': System, p: nat)
    requires LockInv(s) && s'.deviceLocks == s.deviceLocks && s'.managerLock == s.managerLock
    requires p in s'.requests && s'.requests == s.requests[p := s'.requests[p]]
    requires p in s.requests ==>
      && HoldsDevice(s'.requests[p].pc) == HoldsDevice(s.requests[p].pc)
      && HoldsManager(s'.requests[p].pc) == HoldsManager(s.requests[p].pc)
      && s'.requests[p].device == s.requests[p].device
    requires p !in s.requests ==> !HoldsDevice(s'.requests[p].pc) && !HoldsManager(s'.requests[p].pc)
    ensures LockInv(s')
  {
  }

  /** One request moves between holding the device lock and not holding it; it owns the manager
      lock afterwards exactly if its new program counter says so. */
  lemma LocksMove(s: System, s': System, p: nat)
    requires LockInv(s) && p in s.requests && p in s'.requests
    requires s'.requests == s.requests[p := s'.requests[p]] && s'.requests[p].device == s.requests[p].device
    requires s'.deviceLocks ==
      if HoldsDevice(s'.requests[p].pc) then s.deviceLocks[s.requests[p].device := p]
      else if HoldsDevice(s.requests[p].pc) then s.deviceLocks - {s.requests[p].device}
      else s.deviceLocks
    requires HoldsDevice(s'.requests[p].pc) && !HoldsDevice(s.requests[p].pc) ==> s.requests[p].device !in s.deviceLocks
    requires s'.managerLock ==
      if HoldsManager(s'.requests[p].pc) then Some(p)
      else if HoldsManager(s.requests[p].pc) then None
      else s.managerLock
    requires HoldsManager(s'.requests[p].pc) && !HoldsManager(s.requests[p].pc) ==> s.managerLock.None?
    ensures LockInv(s')
  {
    var device := s.requests[p].device;
    forall q | q in s'.requests && HoldsDevice(s'.requests[q].pc)
      ensures s'.requests[q].device in s'.deviceLocks && s'.deviceLocks[s'.requests[q].device] == q
    {
      if q != p && s'.requests[q].device == device {
        assert s.deviceLocks[device] == q;
      }
    }
  }

  lemma ArrivalKeeps(c: Config, s: System, p: nat, role: Role, device: nat)
    requires CoreInv(c, s) && Enabled(c, s, Arrive(p, role, device))
    ensures CoreInv(c, Apply(c, s, Arrive(p, role, device)))
  {
    ArrivalKeepsQuiet(c, s, p, role, device);
    ArrivalKeepsRequests(c, s, p, role, device);
  }

  lemma ArrivalKeepsQuiet(c: Config, s: System, p: nat, role: Role, device: nat)
    requires ManagerInv(c, s) && HandlerInv(c, s) && LockInv(s) && Enabled(c, s, Arrive(p, role, device))
    ensures var s' := Apply(c, s, Arrive(p, role, device));
            ManagerInv(c, s') && HandlerInv(c, s') && LockInv(s')
  {
    var s' := Apply(c, s, Arrive(p, role, device));
    QuietStepKeeps(c, s, s');
    LocksUntouched(s, s', p);
  }

  lemma ArrivalKeepsRequests(c: Config, s: System, p: nat, role: Role, device: nat)
    requires Consistent(s.m) && RequestInv(s) && Enabled(c, s, Arrive(p, role, device))
    ensures RequestInv(Apply(c, s, Arrive(p, role, device)))
  {
    var s' := Apply(c, s, Arrive(p, role, device));
    assert StatusesAdvance(s, s');
    RequestMoves(s, s', p);
  }

  /** Devices come, or go, and nothing else happens. */
  lemma StatusKeeps(c: Config, s: System, s': System)
    requires CoreInv(c, s) && StatusesAdvance(s, s') && s' == s.(devices := s'.devices)
    ensures CoreInv(c, s')
  {
    QuietStepKeeps(c, s, s');
    forall p | p in s'.requests ensures RequestOk(s', p) {
      assert RequestOk(s, p);
      forall id: nat | LiveFor(s', id, s.requests[p].device) ensures LiveFor(s, id, s.requests[p].device) {}
    }
    forall id: nat | Live(s'.m, id) ensures exists p: nat :: OwnedBy(s', id, p) {
      var p: nat :| OwnedBy(s, id, p);
      assert OwnedBy(s', id, p);
    }
    forall p, q | p in s'.requests && q in s'.requests && Swept(s', p, q) ensures !Live(s'.m, s'.requests[q].pc.id) {
      assert Swept(s, p, q);
    }
  }

  lemma EmptyStaysEmpty(s: System, s': System, p: nat)
    requires p in s.requests && RequestOk(s, p) && s'.m == s.m
    requires s.requests[p].pc.Draining? || s.requests[p].pc.WantManagerLock? || s.requests[p].pc.Creating?
    ensures forall id: nat :: !LiveFor(s', id, s.requests[p].device)
  {
    forall id: nat ensures !LiveFor(s', id, s.requests[p].device) {
      assert !LiveFor(s, id, s.requests[p].device);
    }
  }

  predicate MovesQuietly(step: Step) {
    step.CommitRevoke? || step.LockDevice? || step.Drained? || step.LockManager? || step.NoPort?
    || step.ServingStarted? || step.RecheckDevice?
  }

  lemma QuietRequestStepKeeps(c: Config, s: System, step: Step)
    requires CoreInv(c, s) && Enabled(c, s, step) && MovesQuietly(step)
    ensures CoreInv(c, Apply(c, s, step))
  {
    var s' := Apply(c, s, step);
    QuietStepKeeps(c, s, s');
    QuietRequestStepLocks(c, s, step);
    QuietRequestStepRequests(c, s, step);
  }

  lemma QuietRequestStepLocks(c: Config, s: System, step: Step)
    requires Consistent(s.m) && LockInv(s) && Enabled(c, s, step) && MovesQuietly(step)
    ensures LockInv(Apply(c, s, step))
  {
    LocksMove(s, Apply(c, s, step), step.p);
  }

  lemma QuietRequestStepOk(c: Config, s: System, step: Step)
    requires Consistent(s.m) && RequestInv(s) && Enabled(c, s, step) && MovesQuietly(step)
    ensures RequestOk(Apply(c, s, step), step.p)
    ensures forall id: nat :: Names(Apply(c, s, step).requests[step.p].pc, id) ==> Names(s.requests[step.p].pc, id)
  {
    var s' := Apply(c, s, step);
    var p := step.p;
    assert RequestOk(s, p);
    assert forall id: nat :: Names(s'.requests[p].pc, id) ==> Names(s.requests[p].pc, id);
    assert s'.requests[p].pc.Undo? ==> Names(s.requests[p].pc, s'.requests[p].pc.id);
    if s.requests[p].pc.Draining? || s.requests[p].pc.WantManagerLock? {
      EmptyStaysEmpty(s, s', p);
    }
  }

  lemma QuietRequestStepRequests(c: Config, s: System, step: Step)
    requires Consistent(s.m) && RequestInv(s) && Enabled(c, s, step) && MovesQuietly(step)
    ensures RequestInv(Apply(c, s, step))
  {
    var s' := Apply(c, s, step);
    var p := step.p;
    QuietRequestStepOk(c, s, step);
    assert s'.m == s.m && StatusesAdvance(s, s') && s'.requests == s.requests[p := s'.requests[p]];
    if s'.requests[p].pc.Closed? {
      assert RequestOk(s, p);
      EmptyStaysEmpty(s, s', p);
    }
    if s.requests[p].pc.Serving? || s.requests[p].pc.Recheck? {
      assert forall id: nat :: Names(s.requests[p].pc, id) ==> Names(s'.requests[p].pc, id);
    }
    RequestMoves(s, s', p);
  }

  lemma DetachDeviceKeeps(c: Config, s: System, p: nat)
    requires CoreInv(c, s) && Enabled(c, s, DetachDevice(p))
    ensures CoreInv(c, Apply(c, s, DetachDevice(p)))
  {
    var device := s.requests[p].device;
    var ids := LiveOf(s.m, device);
    LiveOfIsLive(s, device);
    DetachAllKeeps(c, s, ids);
    var d := DetachAll(s, ids);
    DetachEmpties(s, device);
    DrainingOk(d, p, ids);
    SetPcKeeps(c, d, p, Draining(ids));
  }

  lemma DetachEmpties(s: System, device: nat)
    requires Consistent(s.m)
    ensures forall id: nat :: !LiveFor(DetachAll(s, LiveOf(s.m, device)), id, device)
  {
    LiveOfIsLive(s, device);
    var d := DetachAll(s, LiveOf(s.m, device));
    forall id: nat ensures !LiveFor(d, id, device) {
      assert LiveFor(d, id, device) ==> LiveFor(s, id, device);
    }
  }

  lemma DrainingOk(s: System, p: nat, ids: set<nat>)
    requires p in s.requests && s.requests[p].pc.WantDetach? && RequestOk(s, p)
    requires forall id: nat :: !LiveFor(s, id, s.requests[p].device)
    ensures RequestOk(SetPc(s, p, Draining(ids)), p)
  {
    forall id: nat ensures !LiveFor(SetPc(s, p, Draining(ids)), id, s.requests[p].device) {
      assert !LiveFor(s, id, s.requests[p].device);
    }
  }

  lemma UndoKeeps(c: Config, s: System, p: nat)
    requires CoreInv(c, s) && Enabled(c, s, UndoOpen(p))
    ensures CoreInv(c, Apply(c, s, UndoOpen(p)))
  {
    var id := s.requests[p].pc.id;
    var ids := MatchAllocation(s.m, s.m.objects[id].allocation);
    CloseNowKeeps(c, s, ids);
    assert Live(s.m, id) ==> id in ids;
    RefuseKeeps(c, CloseNow(s, ids), p);
  }

  lemma CloseNowKeeps(c: Config, s: System, ids: set<nat>)
    requires CoreInv(c, s) && ids <= AllLive(s.m) && s.managerLock.None?
    ensures forall id :: id in ids ==> id < |s.m.objects|
    ensures CoreInv(c, CloseNow(s, ids))
    ensures forall id: nat :: Live(CloseNow(s, ids).m, id) <==> Live(s.m, id) && id !in ids
  {
    DetachAllKeeps(c, s, ids);
    SnapshotKeeps(c, DetachAll(s, ids), ids);
  }

  /** The request gives up once its relay is gone. */
  lemma RefuseKeeps(c: Config, s: System, p: nat)
    requires CoreInv(c, s) && p in s.requests && s.requests[p].pc.Undo? && !Live(s.m, s.requests[p].pc.id)
    ensures CoreInv(c, SetPc(s, p, Refused))
  {
    assert RequestOk(s, p);
    SetPcKeeps(c, s, p, Refused);
  }

  /** Only one program counter changes, and no lock changes hands. */
  lemma SetPcKeeps(c: Config, s: System, p: nat, pc: Pc)
    requires CoreInv(c, s) && p in s.requests
    requires HoldsDevice(pc) == HoldsDevice(s.requests[p].pc) && HoldsManager(pc) == HoldsManager(s.requests[p].pc)
    requires RequestOk(SetPc(s, p, pc), p)
    requires forall id: nat :: Live(s.m, id) && Names(s.requests[p].pc, id) ==> Names(pc, id)
    requires !pc.Closed? && !pc.Opened?
    ensures CoreInv(c, SetPc(s, p, pc))
  {
    var s' := SetPc(s, p, pc);
    QuietStepKeeps(c, s, s');
    RequestMoves(s, s', p);
    assert LockInv(s');
  }

  lemma PublishKeeps(c: Config, s: System, p: nat, a: Allocation)
    requires ConfigOk(c) && CoreInv(c, s) && Enabled(c, s, PublishRelay(p, a))
    ensures CoreInv(c, Apply(c, s, PublishRelay(p, a)))
  {
    PublishConsistent(s.m, a);
    PublishKeepsHandlers(c, s, p, a);
    assert RequestOk(s, p);
    assert LockInv(Apply(c, s, PublishRelay(p, a)));
    PublishKeepsRequests(c, s, p, a);
  }

  lemma PublishKeepsRequests(c: Config, s: System, p: nat, a: Allocation)
    requires CoreInv(c, s) && Enabled(c, s, PublishRelay(p, a))
    ensures RequestInv(Apply(c, s, PublishRelay(p, a)))
  {
    var s' := Apply(c, s, PublishRelay(p, a));
    forall q | q in s'.requests ensures RequestOk(s', q) {
      PublishKeepsRequest(c, s, p, a, q);
    }
    PublishKeepsOwners(c, s, p, a);
    forall q, r | q in s'.requests && r in s'.requests && Swept(s', q, r) ensures !Live(s'.m, s'.requests[r].pc.id) {
      assert Swept(s, q, r) && RequestOk(s, r);
      assert Names(s.requests[r].pc, s.requests[r].pc.id);
    }
  }

  lemma PublishKeepsOwners(c: Config, s: System, p: nat, a: Allocation)
    requires Consistent(s.m) && RequestInv(s) && Enabled(c, s, PublishRelay(p, a))
    ensures var s' := Apply(c, s, PublishRelay(p, a));
      && (forall id: nat :: Live(s'.m, id) ==> exists p: nat :: OwnedBy(s', id, p))
      && (forall i: nat, j: nat :: Live(s'.m, i) && Live(s'.m, j) && s'.m.objects[i].allocation.device == s'.m.objects[j].allocation.device ==> i == j)
  {
    var s' := Apply(c, s, PublishRelay(p, a));
    var newId := |s.m.objects|;
    assert RequestOk(s, p);
    assert forall id: nat :: Live(s'.m, id) <==> Live(s.m, id) || id == newId;
    forall id: nat | Live(s'.m, id) ensures exists q: nat :: OwnedBy(s', id, q) {
      if id == newId {
        assert OwnedBy(s', id, p);
      } else {
        var q: nat :| OwnedBy(s, id, q);
        assert OwnedBy(s', id, q);
      }
    }
    forall i: nat, j: nat | Live(s'.m, i) && Live(s'.m, j) && s'.m.objects[i].allocation.device == s'.m.objects[j].allocation.device
      ensures i == j
    {
      assert !LiveFor(s, i, a.device) && !LiveFor(s, j, a.device);
    }
  }

  lemma PublishKeepsRequest(c: Config, s: System, p: nat, a: Allocation, q: nat)
    requires CoreInv(c, s) && Enabled(c, s, PublishRelay(p, a)) && q in s.requests
    ensures RequestOk(Apply(c, s, PublishRelay(p, a)), q)
  {
    var s' := Apply(c, s, PublishRelay(p, a));
    assert RequestOk(s, q) && RequestOk(s, p);
    if s'.requests[q].device != a.device || q == p {
      forall id: nat | LiveFor(s', id, s'.requests[q].device) && !Names(s'.requests[q].pc, id)
        ensures LiveFor(s, id, s'.requests[q].device) {}
    } else {
      // `p` holds the device lock, so `q` is not in a section that needs the device to be empty
      assert !HoldsDevice(s.requests[q].pc);
    }
  }

  lemma PublishKeepsHandlers(c: Config, s: System, p: nat, a: Allocation)
    requires ConfigOk(c) && CoreInv(c, s) && Enabled(c, s, PublishRelay(p, a))
    ensures HandlerInv(c, Apply(c, s, PublishRelay(p, a)))
  {
    var s' := Apply(c, s, PublishRelay(p, a));
    forall t | t in s'.handlers ensures s'.handlers[t].relay < |s'.m.objects| && HandlerOk(s', t) {
      assert HandlerOk(s, t);
    }
    forall id | 0 <= id < |s'.m.objects| ensures CountOk(c, s', id) {
      assert InFlight(s', id) == InFlight(s, id);
      if id < |s.m.objects| {
        assert CountOk(c, s, id);
      } else {
        assert InFlight(s, id) == {};
      }
    }
  }

  // ---------- One handler moves ----------

  predicate Counted(h: Handler) {
    h.admitted && !h.pc.Gone?
  }

  /** The relay record changes in nothing but the count and what belongs to task `t`. */
  ghost predicate OnlyTask(r: Relay, r': Relay, t: nat) {
    && r'.allocation == r.allocation && r'.closing == r.closing
    && r'.tasks - {t} == r.tasks - {t}
    && (forall u :: u != t ==>
          && (Downstream(u) in r'.writers <==> Downstream(u) in r.writers)
          && (Upstream(u) in r'.writers <==> Upstream(u) in r.writers))
  }

  lemma HandlerMoves(c: Config, s: System, t: nat, h: Handler, r: Relay)
    requires CoreInv(c, s) && h.relay < |s.m.objects| && OnlyTask(s.m.objects[h.relay], r, t)
    requires t in s.handlers ==> s.handlers[t].relay == h.relay
    requires HandlerOk(SetHandler(s, t, h, r), t)
    requires r.active <= c.maxConnections
    requires var before := if t in s.handlers && Counted(s.handlers[t]) then 1 else 0;
             var grown := s.m.objects[h.relay].active - before + if Counted(h) then 1 else 0;
             grown <= r.active && (!r.closing ==> grown == r.active)
    ensures CoreInv(c, SetHandler(s, t, h, r))
  {
    var s' := SetHandler(s, t, h, r);
    assert ManagerInv(c, s') by {
      assert forall id :: 0 <= id < |s.m.objects| ==>
        s'.m.objects[id].allocation == s.m.objects[id].allocation && s'.m.objects[id].closing == s.m.objects[id].closing;
    }
    HandlerMovesHandlers(c, s, t, h, r);
    assert LockInv(s');
    HandlerMovesRequests(c, s, t, h, r);
  }

  lemma HandlerMovesHandlers(c: Config, s: System, t: nat, h: Handler, r: Relay)
    requires HandlerInv(c, s) && h.relay < |s.m.objects| && OnlyTask(s.m.objects[h.relay], r, t)
    requires t in s.handlers ==> s.handlers[t].relay == h.relay
    requires HandlerOk(SetHandler(s, t, h, r), t)
    requires r.active <= c.maxConnections
    requires var before := if t in s.handlers && Counted(s.handlers[t]) then 1 else 0;
             var grown := s.m.objects[h.relay].active - before + if Counted(h) then 1 else 0;
             grown <= r.active && (!r.closing ==> grown == r.active)
    ensures HandlerInv(c, SetHandler(s, t, h, r))
  {
    var s' := SetHandler(s, t, h, r);
    forall u | u in s'.handlers ensures s'.handlers[u].relay < |s'.m.objects| && HandlerOk(s', u) {
      if u != t {
        OtherHandlerOk(s, t, h, r, u);
      }
    }
    forall id, u | 0 <= id < |s'.m.objects| && u in s'.m.objects[id].tasks
      ensures u in s'.handlers && s'.handlers[u].relay == id
    {
      assert id == h.relay && u != t ==> u in r.tasks - {t};
      assert id != h.relay || u != t ==> u in s.m.objects[id].tasks;
    }
    forall id | 0 <= id < |s'.m.objects| ensures CountOk(c, s', id) {
      assert CountOk(c, s, id);
      CountsMove(s, t, h, r, id);
    }
  }

  lemma OtherHandlerOk(s: System, t: nat, h: Handler, r: Relay, u: nat)
    requires h.relay < |s.m.objects| && OnlyTask(s.m.objects[h.relay], r, t)
    requires u in s.handlers && u != t && s.handlers[u].relay < |s.m.objects| && HandlerOk(s, u)
    ensures HandlerOk(SetHandler(s, t, h, r), u)
  {
    assert u in r.tasks - {t} <==> u in r.tasks;
    assert u in s.m.objects[h.relay].tasks - {t} <==> u in s.m.objects[h.relay].tasks;
  }

  lemma CountsMove(s: System, t: nat, h: Handler, r: Relay, id: nat)
    requires h.relay < |s.m.objects|
    requires t in s.handlers ==> s.handlers[t].relay == h.relay
    ensures id != h.relay ==> InFlight(SetHandler(s, t, h, r), id) == InFlight(s, id)
    ensures id == h.relay ==>
      |InFlight(SetHandler(s, t, h, r), id)| ==
      |InFlight(s, id)| - (if t in s.handlers && Counted(s.handlers[t]) then 1 else 0) + (if Counted(h) then 1 else 0)
  {
    var before, after := InFlight(s, id), InFlight(SetHandler(s, t, h, r), id);
    assert forall u :: u != t ==> (u in after <==> u in before);
    assert t in after <==> id == h.relay && Counted(h);
    assert t in before <==> id == h.relay && t in s.handlers && Counted(s.handlers[t]);
    SameButOne(before, after, t);
  }

  lemma SameButOne(before: set<nat>, after: set<nat>, t: nat)
    requires forall u :: u != t ==> (u in after <==> u in before)
    ensures |after| == |before| - (if t in before then 1 else 0) + (if t in after then 1 else 0)
    ensures (t in before <==> t in after) ==> after == before
  {
    var rest := before - {t};
    assert before == if t in before then rest + {t} else rest;
    assert after == if t in after then rest + {t} else rest;
  }

  lemma HandlerMovesRequests(c: Config, s: System, t: nat, h: Handler, r: Relay)
    requires RequestInv(s) && h.relay < |s.m.objects| && OnlyTask(s.m.objects[h.relay], r, t)
    ensures RequestInv(SetHandler(s, t, h, r))
  {
    var s' := SetHandler(s, t, h, r);
    assert forall id: nat :: Live(s'.m, id) <==> Live(s.m, id);
    assert forall p :: p in s.requests ==> RequestOk(s, p);
    FewerLive(s, s');
  }

  lemma HandlerStepKeeps(c: Config, s: System, step: Step)
    requires CoreInv(c, s) && Enabled(c, s, step) && MovesHandler(step)
    ensures CoreInv(c, Apply(c, s, step))
  {
    var (h, r) := HandlerMove(c, s, step);
    HandlerMoveTouches(c, s, step);
    HandlerMoveOk(c, s, step);
    HandlerMoveCount(c, s, step);
    HandlerMoves(c, s, step.t, h, r);
  }

  lemma HandlerMoveTouches(c: Config, s: System, step: Step)
    requires Enabled(c, s, step) && MovesHandler(step)
    ensures var (h, r) := HandlerMove(c, s, step);
            && h.relay < |s.m.objects| && OnlyTask(s.m.objects[h.relay], r, step.t)
            && (step.t in s.handlers ==> s.handlers[step.t].relay == h.relay)
  {
  }

  /** A handler's step leaves requests and the relays' ways down alone. */
  lemma HandlersOnly(c: Config, s: System, step: Step)
    requires Consistent(s.m) && Enabled(c, s, step) && MovesHandler(step)
    ensures var s' := Apply(c, s, step);
      && s'.requests == s.requests && s'.orphans == s.orphans && s'.byShutdown == s.byShutdown && s'.m.withdrawn == s.m.withdrawn
      && |s'.m.objects| == |s.m.objects|
      && forall id: nat :: id < |s.m.objects| ==> s'.m.objects[id].closing == s.m.objects[id].closing
  {
    HandlerMoveTouches(c, s, step);
  }

  /** Every other step may cancel handlers, and that is all. */
  lemma OthersKeepHandlers(c: Config, s: System, step: Step)
    requires Consistent(s.m) && Enabled(c, s, step) && !MovesHandler(step)
    ensures var s' := Apply(c, s, step);
      forall t :: t in s'.handlers ==>
        t in s.handlers && s'.handlers[t].pc == s.handlers[t].pc && s'.handlers[t].relay == s.handlers[t].relay
        && s'.handlers[t].admitted == s.handlers[t].admitted
  {
    if step.UndoOpen? || step.Expire? || step.Snapshot? {
      SnapshotsCancel(c, s, step);
    } else {
      assert Apply(c, s, step).handlers == s.handlers;
    }
  }

  lemma SnapshotsCancel(c: Config, s: System, step: Step)
    requires Consistent(s.m) && Enabled(c, s, step) && (step.UndoOpen? || step.Expire? || step.Snapshot?)
    ensures var s' := Apply(c, s, step);
      forall t :: t in s'.handlers ==> t in s.handlers && s'.handlers[t] == s.handlers[t].(cancelled := s'.handlers[t].cancelled)
  {
  }

  lemma HandlerMoveOk(c: Config, s: System, step: Step)
    requires ManagerInv(c, s) && HandlerInv(c, s) && Enabled(c, s, step) && MovesHandler(step)
    ensures var (h, r) := HandlerMove(c, s, step);
            h.relay < |s.m.objects| && HandlerOk(SetHandler(s, step.t, h, r), step.t)
  {
    if step.t in s.handlers {
      assert HandlerOk(s, step.t);
    }
  }

  lemma HandlerMoveCount(c: Config, s: System, step: Step)
    requires HandlerInv(c, s) && Enabled(c, s, step) && MovesHandler(step)
    ensures var (h, r) := HandlerMove(c, s, step);
            var before := if step.t in s.handlers && Counted(s.handlers[step.t]) then 1 else 0;
            && h.relay < |s.m.objects|
            && var grown := s.m.objects[h.relay].active - before + if Counted(h) then 1 else 0;
            r.active <= c.maxConnections && grown <= r.active && (!r.closing ==> grown == r.active)
  {
    var id := if step.AcceptClient? then step.id else s.handlers[step.t].relay;
    assert CountOk(c, s, id);
    if step.t in s.handlers {
      assert HandlerOk(s, step.t);
    }
  }

  lemma SnapshotKeeps(c: Config, s: System, ids: set<nat>)
    requires CoreInv(c, s) && forall id :: id in ids ==> id < |s.m.objects| && s.m.objects[id].closing
    ensures CoreInv(c, SnapshotAll(s, ids))
  {
    var s' := SnapshotAll(s, ids);
    SnapshotKeepsHandlers(c, s, ids);
    assert ManagerInv(c, s') && LockInv(s');
    SnapshotKeepsRequests(s, ids);
  }

  lemma SnapshotKeepsRequests(s: System, ids: set<nat>)
    requires RequestInv(s)
    ensures RequestInv(SnapshotAll(s, ids))
  {
    assert forall p :: p in s.requests ==> RequestOk(s, p);
    FewerLive(s, SnapshotAll(s, ids));
  }

  lemma SnapshotKeepsHandlers(c: Config, s: System, ids: set<nat>)
    requires HandlerInv(c, s) && forall id :: id in ids ==> id < |s.m.objects| && s.m.objects[id].closing
    ensures HandlerInv(c, SnapshotAll(s, ids))
  {
    var s' := SnapshotAll(s, ids);
    forall t | t in s'.handlers ensures s'.handlers[t].relay < |s'.m.objects| && HandlerOk(s', t) {
      assert HandlerOk(s, t);
      SnapshotKeepsHandler(s, ids, t);
    }
    SnapshotKeepsCounts(c, s, ids);
  }

  lemma SnapshotKeepsHandler(s: System, ids: set<nat>, t: nat)
    requires t in s.handlers && s.handlers[t].relay < |s.m.objects| && HandlerOk(s, t)
    requires forall id :: id in ids ==> id < |s.m.objects| && s.m.objects[id].closing
    ensures HandlerOk(SnapshotAll(s, ids), t)
  {
  }

  lemma SnapshotKeepsCounts(c: Config, s: System, ids: set<nat>)
    requires HandlerInv(c, s)
    ensures forall i :: 0 <= i < |s.m.objects| ==> CountOk(c, SnapshotAll(s, ids), i)
  {
    forall i | 0 <= i < |s.m.objects| ensures CountOk(c, SnapshotAll(s, ids), i) {
      assert CountOk(c, s, i);
      assert InFlight(SnapshotAll(s, ids), i) == InFlight(s, i);
    }
  }

  // ---------- Whole runs ----------

  lemma CoreStepKeeps(c: Config, s: System, step: Step)
    requires ConfigOk(c) && CoreInv(c, s) && Enabled(c, s, step)
    ensures CoreInv(c, Apply(c, s, step))
  {
    if MovesHandler(step) {
      HandlerStepKeeps(c, s, step);
    } else if MovesQuietly(step) {
      QuietRequestStepKeeps(c, s, step);
    } else {
      OtherStepKeeps(c, s, step);
    }
  }

  lemma OtherStepKeeps(c: Config, s: System, step: Step)
    requires ConfigOk(c) && CoreInv(c, s) && Enabled(c, s, step) && !MovesHandler(step) && !MovesQuietly(step)
    ensures CoreInv(c, Apply(c, s, step))
  {
    match step
    case Enroll(_) => StatusKeeps(c, s, Apply(c, s, step));
    case DeleteWithCompany(_) => StatusKeeps(c, s, Apply(c, s, step));
    case Arrive(p, role, device) => ArrivalKeeps(c, s, p, role, device);
    case DetachDevice(p) => DetachDeviceKeeps(c, s, p);
    case PublishRelay(p, a) => PublishKeeps(c, s, p, a);
    case ServingFails(p) => WithdrawKeeps(c, s, p);
    case UndoOpen(p) => UndoKeeps(c, s, p);
    case CancelRequest(p) => CancelKeeps(c, s, p);
    case Expire(id) => CloseNowKeeps(c, s, MatchIdentity(s.m, id));
    case CloseAll => CloseAllKeeps(c, s);
    case Snapshot(id) => SnapshotKeeps(c, s, {id});
  }

  lemma CloseAllKeeps(c: Config, s: System)
    requires CoreInv(c, s) && s.managerLock.None?
    ensures CoreInv(c, Apply(c, s, CloseAll))
  {
    var ids := AllLive(s.m);
    DetachAllKeeps(c, s, ids);
    var d := DetachAll(s, ids);
    NotedKeeps(c, d, s.byShutdown + ids, s.orphans);
    ClosingAll(c, s, ids);
  }

  lemma ClosingAll(c: Config, s: System, ids: set<nat>)
    requires Consistent(s.m) && s.managerLock.None? && ids == AllLive(s.m) && forall id :: id in ids ==> id < |s.m.objects|
    ensures Apply(c, s, CloseAll) == DetachAll(s, ids).(byShutdown := s.byShutdown + ids, orphans := s.orphans)
  {
  }

  /** Only the record of what the shutdown of the Hub detached, or of what a cancelled request
      left behind, changes. */
  lemma NotedKeeps(c: Config, s: System, byShutdown: set<nat>, orphans: set<nat>)
    requires CoreInv(c, s)
    ensures CoreInv(c, s.(byShutdown := byShutdown, orphans := orphans))
  {
    var noted := s.(byShutdown := byShutdown, orphans := orphans);
    QuietStepKeeps(c, s, noted);
    assert forall p :: p in s.requests ==> RequestOk(s, p);
    FewerLive(s, noted);
  }

  /** A waiting request is cancelled: it leaves its locks, and what it closed stays closed. */
  lemma CancelKeeps(c: Config, s: System, p: nat)
    requires CoreInv(c, s) && Enabled(c, s, CancelRequest(p))
    ensures CoreInv(c, Apply(c, s, CancelRequest(p)))
  {
    match s.requests[p].pc {
      case Undo(id) => SetPcKeeps(c, s, p, GaveUp(id));
      case Draining(ids) =>
        NotedKeeps(c, s, s.byShutdown, s.orphans + (ids - s.snapped));
        LeaveKeeps(c, s.(orphans := s.orphans + (ids - s.snapped)), p);
      case _ => LeaveKeeps(c, s, p);
    }
  }

  /** A request that has published nothing ends early. */
  lemma LeaveKeeps(c: Config, s: System, p: nat)
    requires CoreInv(c, s) && p in s.requests && Waits(s.requests[p].pc) && !s.requests[p].pc.Undo?
    ensures CoreInv(c, Leave(s, p, Refused))
  {
    var s' := Leave(s, p, Refused);
    QuietStepKeeps(c, s, s');
    LocksMove(s, s', p);
    assert RequestOk(s, p);
    RequestMoves(s, s', p);
  }

  // ---------- Relays on their way down, and the names requests hold ----------

  /** Request `p` waits for the shutdown of relay `id`. */
  ghost predicate Drains(s: System, p: nat, id: nat) {
    p in s.requests && s.requests[p].pc.Draining? && id in s.requests[p].pc.ids
  }

  ghost predicate GoingDown(s: System, id: nat) {
    id < |s.m.objects| && s.m.objects[id].closing && id !in s.snapped
  }

  /** A detached relay whose shutdown has not begun is awaited by a request of its device, or was
      detached by the shutdown of the Hub, or its request was cancelled and never will be. */
  ghost predicate DrainInv(s: System) {
    && (forall id: nat :: GoingDown(s, id) ==> id in s.byShutdown || id in s.orphans || exists p: nat :: Drains(s, p, id))
    && (forall p: nat, id: nat :: Drains(s, p, id) ==>
          id < |s.m.objects| && s.m.objects[id].closing && s.m.objects[id].allocation.device == s.requests[p].device)
    && (forall id :: id in s.orphans ==> GoingDown(s, id))
  }

  ghost predicate NamedBy(s: System, p: nat, id: nat) {
    p in s.requests && Names(s.requests[p].pc, id)
  }

  /** No two requests name the same relay, and nobody names a withdrawn one. */
  ghost predicate NameInv(s: System) {
    && (forall p: nat, id: nat :: NamedBy(s, p, id) ==> id < |s.m.objects| && id !in s.m.withdrawn)
    && (forall p: nat, q: nat, id: nat :: NamedBy(s, p, id) && NamedBy(s, q, id) ==> p == q)
  }

  ghost predicate Inv(c: Config, s: System) {
    CoreInv(c, s) && DrainInv(s) && NameInv(s)
  }

  /** No more relays go down than were detached here, and who waited still waits or has no need to. */
  lemma DrainKept(s: System, s': System)
    requires DrainInv(s) && |s.m.objects| <= |s'.m.objects|
    requires forall id: nat :: id < |s.m.objects| ==>
      s'.m.objects[id].allocation == s.m.objects[id].allocation && (s.m.objects[id].closing ==> s'.m.objects[id].closing)
    requires s.byShutdown <= s'.byShutdown && s.orphans <= s'.orphans
    requires forall id: nat :: GoingDown(s', id) ==> GoingDown(s, id) || id in s'.byShutdown || exists p: nat :: Drains(s', p, id)
    requires forall p: nat, id: nat :: Drains(s, p, id) && GoingDown(s', id) ==> Drains(s', p, id) || id in s'.orphans
    requires forall p: nat, id: nat :: Drains(s', p, id) ==>
      || (Drains(s, p, id) && s'.requests[p].device == s.requests[p].device)
      || (id < |s'.m.objects| && s'.m.objects[id].closing && s'.m.objects[id].allocation.device == s'.requests[p].device)
    requires forall id :: id in s'.orphans ==> GoingDown(s', id)
    ensures DrainInv(s')
  {
    forall id: nat | GoingDown(s', id) ensures id in s'.byShutdown || id in s'.orphans || exists p: nat :: Drains(s', p, id) {
      if p: nat :| Drains(s, p, id) {
        assert Drains(s', p, id) || id in s'.orphans;
      }
    }
  }

  /** Only one request, the locks and the statuses change; the request waits for no shutdown
      afterwards, and names no relay it did not name. */
  ghost predicate OneMoves(s: System, s': System, p: nat) {
    && s'.m == s.m && s'.snapped == s.snapped && s'.byShutdown == s.byShutdown
    && p in s'.requests && s'.requests == s.requests[p := s'.requests[p]] && !s'.requests[p].pc.Draining?
    && (p in s.requests ==> s'.requests[p].device == s.requests[p].device)
    && (forall id: nat :: Names(s'.requests[p].pc, id) ==> NamedBy(s, p, id))
    && (if p in s.requests && s.requests[p].pc.Draining?
        then s'.orphans == s.orphans || s'.orphans == s.orphans + (s.requests[p].pc.ids - s.snapped)
        else s'.orphans == s.orphans)
    && (p in s.requests && s.requests[p].pc.Draining? ==> s.requests[p].pc.ids <= s.snapped + s'.orphans)
  }

  lemma OneMovesKeeps(s: System, s': System, p: nat)
    requires DrainInv(s) && NameInv(s) && OneMoves(s, s', p)
    ensures DrainInv(s') && NameInv(s')
  {
    forall id | id in s'.orphans ensures GoingDown(s', id) {
      assert id in s.orphans || Drains(s, p, id);
    }
    DrainKept(s, s');
    assert forall q: nat, id: nat :: NamedBy(s', q, id) ==> NamedBy(s, q, id);
  }

  /** Requests stay; a relay that starts to go down is noted in `byShutdown`. */
  ghost predicate RelaysMove(s: System, s': System) {
    && s'.requests == s.requests && s.byShutdown <= s'.byShutdown && s'.orphans == s.orphans && s'.m.withdrawn == s.m.withdrawn
    && |s.m.objects| == |s'.m.objects|
    && (forall id: nat :: id < |s.m.objects| ==>
          s'.m.objects[id].allocation == s.m.objects[id].allocation && (s.m.objects[id].closing ==> s'.m.objects[id].closing))
    && (forall id: nat :: GoingDown(s', id) ==> GoingDown(s, id) || id in s'.byShutdown)
    && (forall id :: id in s.orphans ==> id !in s'.snapped)
  }

  lemma RelaysMoveKeeps(s: System, s': System)
    requires DrainInv(s) && NameInv(s) && RelaysMove(s, s')
    ensures DrainInv(s') && NameInv(s')
  {
    assert forall p: nat, id: nat :: Drains(s', p, id) <==> Drains(s, p, id);
    assert forall p: nat, id: nat :: NamedBy(s', p, id) <==> NamedBy(s, p, id);
    forall id | id in s'.orphans ensures GoingDown(s', id) {
      assert GoingDown(s, id);
    }
    DrainKept(s, s');
  }

  lemma LeaveShape(s: System, p: nat, pc: Pc)
    requires p in s.requests && !pc.Draining? && (forall id: nat :: Names(pc, id) ==> Names(s.requests[p].pc, id))
    requires s.requests[p].pc.Draining? ==> s.requests[p].pc.ids <= s.snapped
    ensures OneMoves(s, Leave(s, p, pc), p)
  {
  }

  lemma CancelShape(c: Config, s: System, p: nat)
    requires Consistent(s.m) && Enabled(c, s, CancelRequest(p))
    ensures OneMoves(s, Apply(c, s, CancelRequest(p)), p)
  {
    match s.requests[p].pc {
      case Undo(id) =>
      case Draining(ids) =>
        var s' := Leave(s.(orphans := s.orphans + (ids - s.snapped)), p, Refused);
        assert Apply(c, s, CancelRequest(p)) == s';
        assert ids <= s.snapped + s'.orphans;
      case _ => LeaveShape(s, p, Refused);
    }
  }

  lemma ArrivalShape(c: Config, s: System, p: nat, role: Role, device: nat)
    requires Consistent(s.m) && Enabled(c, s, Arrive(p, role, device))
    ensures OneMoves(s, Apply(c, s, Arrive(p, role, device)), p)
  {
  }

  lemma QuietShape(c: Config, s: System, step: Step)
    requires Consistent(s.m) && Enabled(c, s, step) && MovesQuietly(step)
    ensures OneMoves(s, Apply(c, s, step), step.p)
  {
    match step {
      case Drained(p) =>
        if s.requests[p].role != Open {
          LeaveShape(s, p, Closed);
        }
      case NoPort(p) => LeaveShape(s, p, Refused);
      case ServingStarted(p) => LeaveShape(s, p, Recheck(s.requests[p].pc.id));
      case _ =>
    }
  }

  lemma DetachingKeeps(c: Config, s: System, p: nat)
    requires CoreInv(c, s) && DrainInv(s) && NameInv(s) && Enabled(c, s, DetachDevice(p))
    ensures DrainInv(Apply(c, s, DetachDevice(p))) && NameInv(Apply(c, s, DetachDevice(p)))
  {
    var ids := LiveOf(s.m, s.requests[p].device);
    LiveOfIsLive(s, s.requests[p].device);
    DrainingKeeps(s, Apply(c, s, DetachDevice(p)), p, ids);
  }

  lemma DrainingKeeps(s: System, s': System, p: nat, ids: set<nat>)
    requires DrainInv(s) && NameInv(s) && p in s.requests && s.requests[p].pc.WantDetach?
    requires forall id :: id in ids ==> id < |s.m.objects| && LiveFor(s, id, s.requests[p].device)
    requires s'.m == DetachSet(s.m, ids) && s'.requests == s.requests[p := s.requests[p].(pc := Draining(ids))]
    requires s'.snapped == s.snapped && s'.byShutdown == s.byShutdown && s'.orphans == s.orphans
    ensures DrainInv(s') && NameInv(s')
  {
    assert forall q: nat, id: nat :: NamedBy(s', q, id) ==> NamedBy(s, q, id);
    forall q: nat, id: nat ensures Drains(s', q, id) <==> Drains(s, q, id) || (q == p && id in ids) {}
    forall id: nat | GoingDown(s', id) ensures GoingDown(s, id) || Drains(s', p, id) {}
    forall id | id in s'.orphans ensures GoingDown(s', id) {
      assert GoingDown(s, id);
    }
    DrainKept(s, s');
  }

  lemma CloseNowShape(s: System, ids: set<nat>)
    requires (forall id :: id in ids ==> id < |s.m.objects| && Live(s.m, id)) && DrainInv(s)
    ensures RelaysMove(s, CloseNow(s, ids))
  {
    forall id | id in s.orphans ensures id !in s.snapped + ids {
      assert GoingDown(s, id);
    }
  }

  lemma ClosingAllShape(c: Config, s: System)
    requires Consistent(s.m) && DrainInv(s) && Enabled(c, s, CloseAll)
    ensures RelaysMove(s, Apply(c, s, CloseAll))
  {
    assert forall id :: id in s.orphans ==> GoingDown(s, id);
  }

  lemma SnapshotShape(s: System, id: nat)
    requires DrainInv(s) && id !in s.orphans
    ensures RelaysMove(s, SnapshotAll(s, {id}))
  {
    assert forall other :: other in s.orphans ==> GoingDown(s, other);
  }

  lemma UndoingKeeps(c: Config, s: System, p: nat)
    requires CoreInv(c, s) && DrainInv(s) && NameInv(s) && Enabled(c, s, UndoOpen(p))
    ensures DrainInv(Apply(c, s, UndoOpen(p))) && NameInv(Apply(c, s, UndoOpen(p)))
  {
    var ids := MatchAllocation(s.m, s.m.objects[s.requests[p].pc.id].allocation);
    CloseNowShape(s, ids);
    var closed := CloseNow(s, ids);
    RelaysMoveKeeps(s, closed);
    OneMovesKeeps(closed, SetPc(closed, p, Refused), p);
  }

  lemma PublishingKeeps(c: Config, s: System, p: nat, a: Allocation)
    requires Consistent(s.m) && DrainInv(s) && NameInv(s) && Enabled(c, s, PublishRelay(p, a))
    ensures DrainInv(Apply(c, s, PublishRelay(p, a))) && NameInv(Apply(c, s, PublishRelay(p, a)))
  {
    var s' := Apply(c, s, PublishRelay(p, a));
    var newId := |s.m.objects|;
    assert forall id: nat :: GoingDown(s', id) <==> GoingDown(s, id);
    assert forall q: nat, id: nat :: Drains(s', q, id) <==> Drains(s, q, id);
    DrainKept(s, s');
    forall q: nat, id: nat ensures NamedBy(s', q, id) <==> (NamedBy(s, q, id) && q != p) || (q == p && id == newId) {}
  }

  lemma WithdrawingKeeps(c: Config, s: System, p: nat)
    requires Consistent(s.m) && DrainInv(s) && NameInv(s) && Enabled(c, s, ServingFails(p))
    ensures DrainInv(Apply(c, s, ServingFails(p))) && NameInv(Apply(c, s, ServingFails(p)))
  {
    var s' := Apply(c, s, ServingFails(p));
    assert forall id: nat :: GoingDown(s', id) <==> GoingDown(s, id);
    assert forall q: nat, id: nat :: Drains(s', q, id) <==> Drains(s, q, id);
    DrainKept(s, s');
    assert NamedBy(s, p, s.requests[p].pc.id);
    assert forall q: nat, id: nat :: NamedBy(s', q, id) ==> NamedBy(s, q, id) && q != p;
  }

  lemma HandlersShape(c: Config, s: System, step: Step)
    requires Consistent(s.m) && DrainInv(s) && Enabled(c, s, step) && MovesHandler(step)
    ensures RelaysMove(s, Apply(c, s, step))
  {
    HandlerMoveTouches(c, s, step);
    var (h, r) := HandlerMove(c, s, step);
    HandlerShape(s, step.t, h, r);
  }

  lemma HandlerShape(s: System, t: nat, h: Handler, r: Relay)
    requires DrainInv(s) && h.relay < |s.m.objects| && OnlyTask(s.m.objects[h.relay], r, t)
    ensures RelaysMove(s, SetHandler(s, t, h, r))
  {
    assert forall id :: id in s.orphans ==> GoingDown(s, id);
  }

  lemma ShapeKeeps(c: Config, s: System, step: Step)
    requires CoreInv(c, s) && DrainInv(s) && NameInv(s) && Enabled(c, s, step)
    ensures DrainInv(Apply(c, s, step)) && NameInv(Apply(c, s, step))
  {
    if MovesHandler(step) {
      HandlersShape(c, s, step);
      RelaysMoveKeeps(s, Apply(c, s, step));
    } else if MovesQuietly(step) {
      QuietShape(c, s, step);
      OneMovesKeeps(s, Apply(c, s, step), step.p);
    } else {
      OtherShapeKeeps(c, s, step);
    }
  }

  lemma OtherShapeKeeps(c: Config, s: System, step: Step)
    requires CoreInv(c, s) && DrainInv(s) && NameInv(s) && Enabled(c, s, step)
    requires !MovesHandler(step) && !MovesQuietly(step)
    ensures DrainInv(Apply(c, s, step)) && NameInv(Apply(c, s, step))
  {
    match step
    case Enroll(_) => RelaysMoveKeeps(s, Apply(c, s, step));
    case DeleteWithCompany(_) => RelaysMoveKeeps(s, Apply(c, s, step));
    case Arrive(p, role, device) =>
      ArrivalShape(c, s, p, role, device);
      OneMovesKeeps(s, Apply(c, s, step), p);
    case DetachDevice(p) => DetachingKeeps(c, s, p);
    case UndoOpen(p) => UndoingKeeps(c, s, p);
    case PublishRelay(p, a) => PublishingKeeps(c, s, p, a);
    case ServingFails(p) => WithdrawingKeeps(c, s, p);
    case CancelRequest(p) =>
      CancelShape(c, s, p);
      OneMovesKeeps(s, Apply(c, s, step), p);
    case Expire(id) =>
      CloseNowShape(s, MatchIdentity(s.m, id));
      RelaysMoveKeeps(s, Apply(c, s, step));
    case CloseAll =>
      ClosingAllShape(c, s);
      RelaysMoveKeeps(s, Apply(c, s, step));
    case Snapshot(id) =>
      SnapshotShape(s, id);
      RelaysMoveKeeps(s, Apply(c, s, step));
  }

  lemma StepKeeps(c: Config, s: System, step: Step)
    requires ConfigOk(c) && Inv(c, s) && Enabled(c, s, step)
    ensures Inv(c, Apply(c, s, step))
  {
    CoreStepKeeps(c, s, step);
    ShapeKeeps(c, s, step);
  }

  /** A step that is not enabled leaves the state as it is. Every reachable state is consistent. */
  ghost function Next(c: Config, s: System, step: Step): System {
    if Consistent(s.m) && Enabled(c, s, step) then Apply(c, s, step) else s
  }

  /** The state after a run. */
  ghost function Exec(c: Config, steps: seq<Step>): System {
    if steps == [] then START else Next(c, Exec(c, steps[..|steps|-1]), steps[|steps|-1])
  }

  /** Whatever the order of the steps, the invariant holds after them. */
  lemma {:induction false} RunKeeps(c: Config, steps: seq<Step>)
    requires ConfigOk(c)
    ensures Inv(c, Exec(c, steps))
  {
    if steps != [] {
      RunKeeps(c, steps[..|steps|-1]);
      var s := Exec(c, steps[..|steps|-1]);
      if Enabled(c, s, steps[|steps|-1]) {
        StepKeeps(c, s, steps[|steps|-1]);
      }
    }
  }
}
