/**
 Every interleaving of enroll requests, with every way in which one can fail. A request works in
 one transaction up to its commit; what it did before that is seen by nobody, but the rows it
 touched are locked. A step that is not enabled leaves the state as it is.
 */
module EnrollmentRuns {
  import opened Options
  import opened TunnelAddresses

  datatype Code = Code(expires: int, used: bool)

  datatype Row = Row(key: string, ip: int)

  datatype Pc =
    | Matched            // the code was unused when it was read
    | Claimed            // its own transaction has set `used_at`
    | Allocated(ip: int)
    | Flushed            // its own transaction has inserted the device
    | Committed          // device, event, audit row and claim are in the database
    | Undoing            // the peer could not be added
    | Answering          // the peer was added; the answer reads the device's row once more
    | Done
    | Failed
    | Kept               // ended by an exception after its commit; nobody undoes that

  /** How `add_peer` ends: `Refused` is a `WireGuardError`, `Raised` any other exception. */
  datatype PeerAnswer = Added | Refused | Raised

  /** A request, and the device that it inserted, if it came that far. */
  datatype Request = Request(code: nat, key: string, now: int, pc: Pc, device: Option<nat>)

  datatype System = System(
    codes: map<nat, Code>,
    devices: map<nat, Row>,
    events: set<nat>,         // devices with an "enrolled" event
    audits: set<nat>,         // devices named by an enrollment in the audit log
    unnamed: set<nat>,        // those whose audit row lost their name when they were deleted
    pending: map<nat, Row>,   // inserted by transactions that are still open
    requests: map<nat, Request>,
    ids: set<nat>,            // every device id made so far
    deleted: set<nat>)        // devices that an administrator has deleted

  datatype Step =
    | NewCode(c: nat, expires: int)
    | Arrive(r: nat, c: nat, key: string, now: int)
    | Abort(r: nat)
    | Claim(r: nat)
    | Allocate(r: nat, order: seq<nat>)
    | Flush(r: nat, d: nat)
    | Commit(r: nat, ok: bool)
    | PeerAdded(r: nat, answer: PeerAnswer)
    | Compensate(r: nat, ok: bool)
    | Answer(r: nat, ok: bool)
    | DeleteDevice(d: nat)

  const START := System(map[], map[], {}, {}, {}, map[], map[], {}, {})

  predicate At(s: System, r: nat, pc: Pc) {
    r in s.requests && s.requests[r].pc == pc
  }

  /** Holds the row lock of its code. */
  predicate IsOpen(pc: Pc) {
    pc == Claimed || pc.Allocated? || pc == Flushed
  }

  /** Its claim is committed. */
  predicate Backs(pc: Pc) {
    pc == Committed || pc == Undoing || pc == Answering || pc == Done || pc == Kept
  }

  predicate CodeLocked(s: System, c: nat) {
    exists r :: r in s.requests && s.requests[r].code == c && IsOpen(s.requests[r].pc)
  }

  predicate Clashes(rows: map<nat, Row>, key: string, ip: int) {
    exists d :: d in rows && (rows[d].key == key || rows[d].ip == ip)
  }

  function RowsOf(devices: map<nat, Row>, order: seq<nat>): (rows: seq<Address>)
    requires forall i :: 0 <= i < |order| ==> order[i] in devices
    ensures |rows| == |order| && forall i :: 0 <= i < |order| ==> rows[i] == V4(devices[order[i]].ip)
  {
    if order == [] then [] else [V4(devices[order[0]].ip)] + RowsOf(devices, order[1..])
  }

  predicate Enabled(s: System, step: Step) {
    match step
    case NewCode(c, _) => c !in s.codes
    case Arrive(r, _, _, _) => r !in s.requests
    case Abort(r) => r in s.requests && (s.requests[r].pc == Matched || IsOpen(s.requests[r].pc))
    case Claim(r) => At(s, r, Matched) && !CodeLocked(s, s.requests[r].code)
    case Allocate(r, order) => At(s, r, Claimed) && (forall i :: 0 <= i < |order| ==> order[i] in s.devices) && (forall d :: d in s.devices ==> d in order)
    case Flush(r, d) =>
      && r in s.requests && s.requests[r].pc.Allocated? && d !in s.ids
      && !Clashes(s.pending, s.requests[r].key, s.requests[r].pc.ip)
    case Commit(r, _) => At(s, r, Flushed) && s.requests[r].device.Some? && s.requests[r].device.value in s.pending && s.requests[r].code in s.codes
    case PeerAdded(r, _) => At(s, r, Committed)
    case Compensate(r, _) => At(s, r, Undoing) && s.requests[r].device.Some? && s.requests[r].code in s.codes
    case Answer(r, ok) => At(s, r, Answering) && s.requests[r].device.Some? && (ok ==> s.requests[r].device.value in s.devices)
    case DeleteDevice(d) => d in s.devices
  }

  function Move(s: System, r: nat, pc: Pc): System
    requires r in s.requests
  {
    s.(requests := s.requests[r := s.requests[r].(pc := pc)])
  }

  predicate Claimable(s: System, c: nat, now: int) {
    c in s.codes && !s.codes[c].used && s.codes[c].expires > now
  }

  function SetUsed(s: System, c: nat, used: bool): System
    requires c in s.codes
  {
    s.(codes := s.codes[c := s.codes[c].(used := used)])
  }

  function Apply(net: HubNetwork, s: System, step: Step): System
    requires Enabled(s, step)
  {
    match step
    case NewCode(c, expires) => s.(codes := s.codes[c := Code(expires, false)])
    case Arrive(r, c, key, now) =>
      s.(requests := s.requests[r := Request(c, key, now, if Claimable(s, c, now) then Matched else Failed, None)])
    case Abort(r) =>
      Move(s.(pending := if s.requests[r].device.Some? then s.pending - {s.requests[r].device.value} else s.pending), r, Failed)
    case Claim(r) => Move(s, r, if Claimable(s, s.requests[r].code, s.requests[r].now) then Claimed else Failed)
    case Allocate(r, order) =>
      (match NextTunnelIp(net, RowsOf(s.devices, order))
       case Ok(ip) => Move(s, r, Allocated(ip))
       case Err(_) => Move(s, r, Failed))
    case Flush(r, d) =>
      var q := s.requests[r];
      if Clashes(s.devices, q.key, q.pc.ip) then Move(s, r, Failed)
      else s.(pending := s.pending[d := Row(q.key, q.pc.ip)], ids := s.ids + {d}, requests := s.requests[r := q.(pc := Flushed, device := Some(d))])
    case Commit(r, ok) =>
      var d := s.requests[r].device.value;
      if !ok then Move(s.(pending := s.pending - {d}), r, Failed)
      else
        SetUsed(Move(s.(pending := s.pending - {d}, devices := s.devices[d := s.pending[d]], events := s.events + {d}, audits := s.audits + {d}),
                     r, Committed), s.requests[r].code, true)
    case PeerAdded(r, answer) => Move(s, r, match answer case Added => Answering case Refused => Undoing case Raised => Kept)
    case Compensate(r, ok) =>
      var d := s.requests[r].device.value;
      if !ok then Move(s, r, Kept)
      else SetUsed(Move(s.(devices := s.devices - {d}, events := s.events - {d}, audits := s.audits - {d}), r, Failed), s.requests[r].code, false)
    case Answer(r, ok) => Move(s, r, if ok then Done else Kept)
    case DeleteDevice(d) =>
      s.(devices := s.devices - {d}, events := s.events - {d}, deleted := s.deleted + {d},
         audits := s.audits - {d}, unnamed := if d in s.audits then s.unnamed + {d} else s.unnamed)
  }

  function Next(net: HubNetwork, s: System, step: Step): System {
    if Enabled(s, step) then Apply(net, s, step) else s
  }

  function Exec(net: HubNetwork, steps: seq<Step>): System {
    if steps == [] then START else Next(net, Exec(net, steps[..|steps|-1]), steps[|steps|-1])
  }

  // ---------- What every step keeps ----------

  predicate Holds(pc: Pc) {
    IsOpen(pc) || Backs(pc)
  }

  /** Who enrolls, or has enrolled, with a code. */
  predicate Holder(s: System, r: nat, c: nat) {
    r in s.requests && s.requests[r].code == c && Holds(s.requests[r].pc)
  }

  predicate Backer(s: System, r: nat, c: nat) {
    r in s.requests && s.requests[r].code == c && Backs(s.requests[r].pc)
  }

  ghost predicate CodesOk(s: System) {
    && (forall r, q, c :: Holder(s, r, c) && Holder(s, q, c) ==> r == q)
    && (forall r, c :: Holder(s, r, c) ==> c in s.codes && (s.codes[c].used <==> Backer(s, r, c)))
    && (forall c :: c in s.codes && s.codes[c].used ==> exists r :: Backer(s, r, c))
  }

  /** Every row of the database and of the open transactions. */
  function AllRows(s: System): map<nat, Row> {
    s.devices + s.pending
  }

  /** Every device on a host address of its own, with a key of its own. */
  ghost predicate DistinctRows(net: HubNetwork, rows: map<nat, Row>) {
    && (forall d :: d in rows ==> IsHost(net, rows[d].ip) && rows[d].ip != net.hub)
    && (forall d, e :: d in rows && e in rows && d != e ==> rows[d].ip != rows[e].ip && rows[d].key != rows[e].key)
  }

  ghost predicate RowsOk(net: HubNetwork, s: System) {
    s.devices.Keys !! s.pending.Keys && DistinctRows(net, AllRows(s))
  }

  ghost predicate IdsOk(s: System) {
    && s.devices.Keys <= s.ids && s.pending.Keys <= s.ids && s.events <= s.ids && s.audits <= s.ids && s.unnamed <= s.deleted <= s.ids
    && (forall r :: r in s.requests && s.requests[r].device.Some? ==> s.requests[r].device.value in s.ids)
    && (forall r, q :: r in s.requests && q in s.requests && s.requests[r].device.Some? && s.requests[r].device == s.requests[q].device ==> r == q)
  }

  /** Nothing that names the device is in the database. */
  predicate Absent(s: System, d: nat) {
    d !in s.devices && d !in s.events && d !in s.audits
  }

  /** Everything about it is; once it was deleted, an audit row without its name. */
  predicate Present(s: System, d: nat, key: string) {
    if d in s.deleted then Absent(s, d) && d in s.unnamed
    else d in s.devices && s.devices[d].key == key && d in s.events && d in s.audits
  }

  predicate RequestOk(net: HubNetwork, s: System, q: Request) {
    match q.pc
    case Matched => q.device.None?
    case Claimed => q.device.None?
    case Allocated(ip) => q.device.None? && IsHost(net, ip) && ip != net.hub
    case Flushed => q.device.Some? && Absent(s, q.device.value) && q.device.value !in s.deleted
                    && q.device.value in s.pending && s.pending[q.device.value].key == q.key
    case Failed =>
      q.device.Some? ==>
        Absent(s, q.device.value) && q.device.value !in s.pending && (q.device.value in s.unnamed <==> q.device.value in s.deleted)
    case _ => q.device.Some? && Present(s, q.device.value, q.key) && q.device.value !in s.pending
  }

  ghost predicate Inv(net: HubNetwork, s: System) {
    && CodesOk(s) && RowsOk(net, s) && IdsOk(s)
    && forall r :: r in s.requests ==> RequestOk(net, s, s.requests[r])
  }

  /** Request `r` goes on without touching any code. */
  lemma SameHolders(s: System, s': System, r: nat)
    requires CodesOk(s) && s'.codes == s.codes && r in s'.requests && s'.requests == s.requests[r := s'.requests[r]]
    requires r in s.requests ==> s.requests[r].code == s'.requests[r].code
    requires Holds(s'.requests[r].pc) ==> r in s.requests && Holds(s.requests[r].pc)
    requires r in s.requests ==> (Backs(s.requests[r].pc) <==> Backs(s'.requests[r].pc))
    requires r !in s.requests ==> !Backs(s'.requests[r].pc)
    ensures CodesOk(s')
  {
    assert forall q, c :: Holder(s', q, c) ==> Holder(s, q, c);
    assert forall q, c :: Backer(s', q, c) <==> Backer(s, q, c);
  }

  /** Request `r` takes, confirms or gives back its code. */
  lemma MovedHolder(s: System, s': System, r: nat, pc: Pc, used: bool)
    requires CodesOk(s) && r in s.requests && s.requests[r].code in s.codes
    requires s'.requests == s.requests[r := s.requests[r].(pc := pc)]
    requires s'.codes == s.codes[s.requests[r].code := s.codes[s.requests[r].code].(used := used)]
    requires used == Backs(pc)
    requires forall q :: Holder(s, q, s.requests[r].code) ==> q == r
    ensures CodesOk(s')
  {
    var c := s.requests[r].code;
    assert forall q, b :: Holder(s', q, b) ==> q == r || Holder(s, q, b);
    assert forall q, b :: b != c || q != r ==> (Backer(s', q, b) <==> Backer(s, q, b));
    forall b | b in s'.codes && s'.codes[b].used ensures exists q :: Backer(s', q, b) {
      if b == c {
        assert Backer(s', r, c);
      } else {
        var q :| Backer(s, q, b);
        assert Backer(s', q, b);
      }
    }
  }

  lemma ClaimKeepsCodes(net: HubNetwork, s: System, r: nat)
    requires CodesOk(s) && Enabled(s, Claim(r))
    ensures CodesOk(Apply(net, s, Claim(r)))
  {
    var s', q := Apply(net, s, Claim(r)), s.requests[r];
    if Claimable(s, q.code, q.now) {
      forall h ensures Holder(s, h, q.code) ==> CodeLocked(s, q.code) || Backer(s, h, q.code) {
      }
      MovedHolder(s, s', r, Claimed, false);
    } else {
      SameHolders(s, s', r);
    }
  }

  lemma CommitKeepsCodes(net: HubNetwork, s: System, step: Step)
    requires CodesOk(s) && Enabled(s, step) && (step.Commit? || step.Compensate?)
    ensures CodesOk(Apply(net, s, step))
  {
    var s', r, c := Apply(net, s, step), step.r, s.requests[step.r].code;
    assert Holder(s, r, c);
    MovedHolder(s, s', r, s'.requests[r].pc, Backs(s'.requests[r].pc));
  }

  lemma CodesKept(net: HubNetwork, s: System, step: Step)
    requires CodesOk(s) && Enabled(s, step)
    ensures CodesOk(Apply(net, s, step))
  {
    var s' := Apply(net, s, step);
    match step
    case Claim(r) => ClaimKeepsCodes(net, s, r);
    case Commit(_, _) => CommitKeepsCodes(net, s, step);
    case Compensate(_, _) => CommitKeepsCodes(net, s, step);
    case NewCode(c, _) =>
      assert forall q, b :: Backer(s', q, b) <==> Backer(s, q, b);
      assert forall q, b :: Holder(s', q, b) <==> Holder(s, q, b);
    case DeleteDevice(_) =>
      assert forall q, b :: Backer(s', q, b) <==> Backer(s, q, b);
      assert forall q, b :: Holder(s', q, b) <==> Holder(s, q, b);
    case _ => SameHolders(s, s', step.r);
  }

  lemma OneMoreRow(net: HubNetwork, devices: map<nat, Row>, pending: map<nat, Row>, d: nat, row: Row)
    requires DistinctRows(net, devices + pending) && devices.Keys !! pending.Keys && d !in devices
    requires IsHost(net, row.ip) && row.ip != net.hub
    requires !Clashes(devices, row.key, row.ip) && !Clashes(pending, row.key, row.ip)
    ensures DistinctRows(net, devices + pending[d := row])
  {
    var rows, more := devices + pending, devices + pending[d := row];
    forall e | e in more && e != d ensures e in rows && more[e] == rows[e] && rows[e].ip != row.ip && rows[e].key != row.key {
      assert e in pending || e in devices;
    }
  }

  lemma FewerRows(net: HubNetwork, rows: map<nat, Row>, fewer: map<nat, Row>)
    requires DistinctRows(net, rows) && forall d :: d in fewer ==> d in rows && fewer[d] == rows[d]
    ensures DistinctRows(net, fewer)
  {
  }

  /** Any step but an insertion leaves a part of the rows. */
  lemma RowsShrink(net: HubNetwork, s: System, step: Step)
    requires s.devices.Keys !! s.pending.Keys && Enabled(s, step)
    ensures var s' := Apply(net, s, step);
      s'.pending == s.pending || !step.Flush? ==>
        s'.devices.Keys !! s'.pending.Keys && forall d :: d in AllRows(s') ==> d in AllRows(s) && AllRows(s')[d] == AllRows(s)[d]
  {
  }

  lemma RowsKept(net: HubNetwork, s: System, step: Step)
    requires RowsOk(net, s) && IdsOk(s) && Enabled(s, step)
    requires step.Flush? ==> RequestOk(net, s, s.requests[step.r])
    ensures RowsOk(net, Apply(net, s, step))
  {
    var s' := Apply(net, s, step);
    RowsShrink(net, s, step);
    if step.Flush? && s'.pending != s.pending {
      FlushKeepsRows(net, s, step.r, step.d);
    } else {
      FewerRows(net, AllRows(s), AllRows(s'));
    }
  }

  lemma FlushKeepsRows(net: HubNetwork, s: System, r: nat, d: nat)
    requires RowsOk(net, s) && s.devices.Keys <= s.ids && Enabled(s, Flush(r, d)) && RequestOk(net, s, s.requests[r])
    requires !Clashes(s.devices, s.requests[r].key, s.requests[r].pc.ip)
    ensures RowsOk(net, Apply(net, s, Flush(r, d)))
  {
    OneMoreRow(net, s.devices, s.pending, d, Row(s.requests[r].key, s.requests[r].pc.ip));
  }

  lemma IdsKept(net: HubNetwork, s: System, step: Step)
    requires IdsOk(s) && Enabled(s, step)
    ensures IdsOk(Apply(net, s, step))
  {
    var s' := Apply(net, s, step);
    OwnDevices(net, s, step);
    assert s'.devices.Keys <= s'.ids && s'.pending.Keys <= s'.ids;
  }

  /** Only a flush gives a request a device, and that device is new. */
  lemma OwnDevices(net: HubNetwork, s: System, step: Step)
    requires IdsOk(s) && Enabled(s, step)
    ensures var s' := Apply(net, s, step);
      && (forall r :: r in s'.requests && s'.requests[r].device.Some? ==> s'.requests[r].device.value in s'.ids)
      && (forall r, q :: r in s'.requests && q in s'.requests && s'.requests[r].device.Some? && s'.requests[r].device == s'.requests[q].device ==> r == q)
  {
    var s' := Apply(net, s, step);
    forall r | r in s'.requests && s'.requests[r].device.Some?
      ensures (step.Flush? && r == step.r && s'.requests[r].device.value !in s.ids)
        || (r in s.requests && s'.requests[r].device == s.requests[r].device)
    {
    }
  }

  lemma AllocatedIsHost(net: HubNetwork, s: System, r: nat, order: seq<nat>)
    requires Enabled(s, Allocate(r, order))
    ensures var pc := Apply(net, s, Allocate(r, order)).requests[r].pc;
      pc == Failed || (pc.Allocated? && IsHost(net, pc.ip) && pc.ip != net.hub)
  {
    AllocationIsLeastFree(net, RowsOf(s.devices, order));
  }

  /** The request that takes the step. */
  lemma MoverKept(net: HubNetwork, s: System, step: Step)
    requires IdsOk(s) && Enabled(s, step) && !step.NewCode? && !step.DeleteDevice?
    requires step.r in s.requests ==> RequestOk(net, s, s.requests[step.r])
    ensures RequestOk(net, Apply(net, s, step), Apply(net, s, step).requests[step.r])
  {
    if step.Allocate? {
      AllocatedIsHost(net, s, step.r, step.order);
    }
  }

  /** Any other request: its device is not the one that the step is about. */
  lemma OtherKept(net: HubNetwork, s: System, step: Step, q: nat)
    requires IdsOk(s) && Enabled(s, step) && q in s.requests && RequestOk(net, s, s.requests[q])
    requires step.NewCode? || step.DeleteDevice? || q != step.r
    ensures RequestOk(net, Apply(net, s, step), s.requests[q])
  {
  }

  lemma StepKeeps(net: HubNetwork, s: System, step: Step)
    requires Inv(net, s) && Enabled(s, step)
    ensures Inv(net, Apply(net, s, step))
  {
    var s' := Apply(net, s, step);
    CodesKept(net, s, step);
    assert step.Flush? ==> RequestOk(net, s, s.requests[step.r]);
    RowsKept(net, s, step);
    IdsKept(net, s, step);
    forall q | q in s'.requests ensures RequestOk(net, s', s'.requests[q]) {
      if step.NewCode? || step.DeleteDevice? || q != step.r {
        assert RequestOk(net, s, s.requests[q]);
        OtherKept(net, s, step, q);
      } else {
        assert q in s.requests ==> RequestOk(net, s, s.requests[q]);
        MoverKept(net, s, step);
      }
    }
  }

  lemma {:induction false} RunKeeps(net: HubNetwork, steps: seq<Step>)
    ensures Inv(net, Exec(net, steps))
  {
    if steps != [] {
      var before := Exec(net, steps[..|steps|-1]);
      RunKeeps(net, steps[..|steps|-1]);
      if Enabled(before, steps[|steps|-1]) {
        StepKeeps(net, before, steps[|steps|-1]);
      }
    }
  }

  // ---------- Main results, each for every run ----------

  /** A code is used exactly as long as one request with it has a committed enrollment: one that
      succeeded, one that is not done yet, or one that ended by an exception after its commit.
      A code backs at most one device. */
  lemma UsedCodesAreEnrollments(net: HubNetwork, steps: seq<Step>, c: nat)
    ensures var s := Exec(net, steps);
      && (c in s.codes && s.codes[c].used <==> exists r :: Backer(s, r, c))
      && (forall r, q :: Backer(s, r, c) && Backer(s, q, c) ==> r == q)
  {
    RunKeeps(net, steps);
    var s := Exec(net, steps);
    assert forall r :: Backer(s, r, c) ==> Holder(s, r, c);
  }

  /** The step raises out of request `r` after its commit: out of `add_peer` with anything but a
      `WireGuardError`, out of the compensation, or out of the answer to an added peer. */
  predicate Raises(s: System, step: Step, r: nat) {
    Enabled(s, step) && (step == PeerAdded(r, Raised) || step == Compensate(r, false) || step == Answer(r, false))
  }

  predicate RaisedAt(net: HubNetwork, steps: seq<Step>, k: nat, r: nat) {
    k < |steps| && Raises(Exec(net, steps[..k]), steps[k], r)
  }

  lemma KeptStepByStep(net: HubNetwork, s: System, step: Step, r: nat)
    ensures At(Next(net, s, step), r, Kept) <==> At(s, r, Kept) || Raises(s, step, r)
  {
    if Enabled(s, step) && !step.PeerAdded? && !step.Compensate? && !step.Answer? {
      NobodyElseIsKept(net, s, step, r);
    }
  }

  lemma NobodyElseIsKept(net: HubNetwork, s: System, step: Step, r: nat)
    requires Enabled(s, step) && !step.PeerAdded? && !step.Compensate? && !step.Answer?
    ensures At(Apply(net, s, step), r, Kept) <==> At(s, r, Kept)
  {
  }

  lemma {:induction false} KeptExactlyWhen(net: HubNetwork, steps: seq<Step>, r: nat)
    ensures At(Exec(net, steps), r, Kept) <==> exists k: nat :: RaisedAt(net, steps, k, r)
  {
    if steps == [] {
      assert forall k: nat :: !RaisedAt(net, steps, k, r);
    } else {
      var n := |steps| - 1;
      KeptExactlyWhen(net, steps[..n], r);
      KeptStepByStep(net, Exec(net, steps[..n]), steps[n], r);
      RaisedMore(net, steps, r);
    }
  }

  lemma RaisedMore(net: HubNetwork, steps: seq<Step>, r: nat)
    requires steps != []
    ensures var n := |steps| - 1;
      (exists k: nat :: RaisedAt(net, steps, k, r)) <==>
      (exists k: nat :: RaisedAt(net, steps[..n], k, r)) || Raises(Exec(net, steps[..n]), steps[n], r)
  {
    var n := |steps| - 1;
    forall k: nat | k < n ensures RaisedAt(net, steps, k, r) <==> RaisedAt(net, steps[..n], k, r) {
      assert steps[..n][..k] == steps[..k];
    }
    if k: nat :| RaisedAt(net, steps[..n], k, r) {
      assert RaisedAt(net, steps, k, r);
    }
    assert RaisedAt(net, steps, n, r) <==> Raises(Exec(net, steps[..n]), steps[n], r);
  }

  /** An administrator deletes the device of request `r`. */
  predicate DeletedAt(net: HubNetwork, steps: seq<Step>, k: nat, d: nat) {
    k < |steps| && steps[k] == DeleteDevice(d) && Enabled(Exec(net, steps[..k]), steps[k])
  }

  lemma {:induction false} DeletedExactlyWhen(net: HubNetwork, steps: seq<Step>, d: nat)
    ensures d in Exec(net, steps).deleted <==> exists k: nat :: DeletedAt(net, steps, k, d)
  {
    if steps == [] {
      assert forall k: nat :: !DeletedAt(net, steps, k, d);
    } else {
      var n := |steps| - 1;
      var before := Exec(net, steps[..n]);
      DeletedExactlyWhen(net, steps[..n], d);
      DeletedByAStep(net, before, steps[n], d);
      forall k: nat ensures DeletedAt(net, steps, k, d) <==>
        DeletedAt(net, steps[..n], k, d) || (k == n && steps[n] == DeleteDevice(d) && Enabled(before, steps[n]))
      {
        assert k < n ==> steps[..n][..k] == steps[..k];
      }
      if steps[n] == DeleteDevice(d) && Enabled(before, steps[n]) {
        assert DeletedAt(net, steps, n, d);
      }
      if k: nat :| DeletedAt(net, steps[..n], k, d) {
        assert DeletedAt(net, steps, k, d);
      }
    }
  }

  lemma DeletedByAStep(net: HubNetwork, s: System, step: Step, d: nat)
    ensures d in Next(net, s, step).deleted <==> d in s.deleted || (step == DeleteDevice(d) && Enabled(s, step))
  {
  }

  /** A request that ended without success, at whatever point, leaves nothing if and only if no
      step of the run raised out of it after its commit, and none deleted its device; after a
      deletion in between, the compensation misses the audit row, which no longer names the device. */
  lemma FailedRequestsLeaveNothing(net: HubNetwork, steps: seq<Step>, r: nat)
    ensures var s := Exec(net, steps);
      At(s, r, Failed) || At(s, r, Kept) ==>
        (!Holder(s, r, s.requests[r].code)
         && (s.requests[r].device.Some? ==> Absent(s, s.requests[r].device.value) && s.requests[r].device.value !in s.unnamed) <==>
          && (!exists k: nat :: RaisedAt(net, steps, k, r))
          && (!exists k: nat :: s.requests[r].device.Some? && DeletedAt(net, steps, k, s.requests[r].device.value)))
  {
    RunKeeps(net, steps);
    var s := Exec(net, steps);
    KeptExactlyWhen(net, steps, r);
    if r in s.requests {
      assert RequestOk(net, s, s.requests[r]);
      if s.requests[r].device.Some? {
        DeletedExactlyWhen(net, steps, s.requests[r].device.value);
      }
    }
  }

  lemma Extend(net: HubNetwork, steps: seq<Step>, step: Step)
    ensures Exec(net, steps + [step]) == Next(net, Exec(net, steps), step)
  {
    assert (steps + [step])[..|steps|] == steps;
  }

  predicate IsSomeones(devices: map<nat, Row>, ip: int) {
    exists d :: d in devices && devices[d].ip == ip
  }

  /** No device of the database has the address, and every lower host but the Hub's is some device's. */
  ghost predicate IsLeastFree(net: HubNetwork, devices: map<nat, Row>, ip: int) {
    && net.base < ip < net.base + net.size - 1 && ip != net.hub && !IsSomeones(devices, ip)
    && forall other :: net.base < other < ip && other != net.hub ==> IsSomeones(devices, other)
  }

  ghost predicate AllocatedAt(net: HubNetwork, steps: seq<Step>, k: nat, r: nat, ip: int) {
    k < |steps| && steps[k].Allocate? && steps[k].r == r && IsLeastFree(net, Exec(net, steps[..k]).devices, ip)
  }

  lemma AllocatesLeastFree(net: HubNetwork, s: System, step: Step, r: nat, ip: int)
    requires At(Next(net, s, step), r, Allocated(ip))
    ensures At(s, r, Allocated(ip)) || (step.Allocate? && step.r == r && IsLeastFree(net, s.devices, ip))
  {
    if step.Allocate? && step.r == r && Enabled(s, step) && !At(s, r, Allocated(ip)) {
      assert NextTunnelIp(net, RowsOf(s.devices, step.order)) == Ok(ip);
      LeastFreeOf(net, s.devices, step.order, ip);
    }
  }

  lemma TakenIsSomeones(net: HubNetwork, devices: map<nat, Row>, order: seq<nat>, ip: int)
    requires (forall i :: 0 <= i < |order| ==> order[i] in devices) && forall d :: d in devices ==> d in order
    requires ip != net.hub
    ensures IsTaken(net, RowsOf(devices, order), ip) <==> IsSomeones(devices, ip)
  {
    var rows := RowsOf(devices, order);
    if IsSomeones(devices, ip) {
      var d :| d in devices && devices[d].ip == ip;
      var i :| 0 <= i < |order| && order[i] == d;
      assert rows[i] == V4(ip);
    }
    if i :| 0 <= i < |rows| && rows[i] == V4(ip) {
      assert devices[order[i]].ip == ip;
    }
  }

  lemma LeastFreeOf(net: HubNetwork, devices: map<nat, Row>, order: seq<nat>, ip: int)
    requires (forall i :: 0 <= i < |order| ==> order[i] in devices) && forall d :: d in devices ==> d in order
    requires NextTunnelIp(net, RowsOf(devices, order)) == Ok(ip)
    ensures IsLeastFree(net, devices, ip)
  {
    AllocationIsLeastFree(net, RowsOf(devices, order));
    TakenIsSomeones(net, devices, order, ip);
    forall other | net.base < other < ip && other != net.hub ensures IsSomeones(devices, other) {
      TakenIsSomeones(net, devices, order, other);
    }
  }

  /** An address that a request holds was the least free one of the database when it was picked. */
  lemma {:induction false} AllocatedWasLeastFree(net: HubNetwork, steps: seq<Step>, r: nat, ip: int)
    requires At(Exec(net, steps), r, Allocated(ip))
    ensures exists k: nat :: AllocatedAt(net, steps, k, r, ip)
  {
    var n := |steps| - 1;
    AllocatesLeastFree(net, Exec(net, steps[..n]), steps[n], r, ip);
    if At(Exec(net, steps[..n]), r, Allocated(ip)) {
      AllocatedWasLeastFree(net, steps[..n], r, ip);
      var k: nat :| AllocatedAt(net, steps[..n], k, r, ip);
      assert steps[..n][..k] == steps[..k];
      assert AllocatedAt(net, steps, k, r, ip);
    } else {
      assert AllocatedAt(net, steps, n, r, ip);
    }
  }

  // ---------- What a request comes to that nobody disturbs ----------

  function WithRequest(s: System, r: nat, q: Request): System {
    s.(requests := s.requests[r := q])
  }

  lemma WithTwice(s: System, r: nat, q: Request, q': Request)
    ensures WithRequest(WithRequest(s, r, q), r, q') == WithRequest(s, r, q')
  {
    assert s.requests[r := q][r := q'] == s.requests[r := q'];
  }

  lemma ArrivedThere(net: HubNetwork, s: System, r: nat, c: nat, key: string, now: int)
    requires r !in s.requests && c in s.codes
    ensures Next(net, s, Arrive(r, c, key, now)) ==
      WithRequest(s, r, Request(c, key, now, if !s.codes[c].used && s.codes[c].expires > now then Matched else Failed, None))
  {
  }

  lemma ClaimedNext(net: HubNetwork, s: System, r: nat, c: nat, key: string, now: int)
    requires r !in s.requests && c in s.codes && !s.codes[c].used && s.codes[c].expires > now
    requires forall q :: q in s.requests && s.requests[q].code == c ==> !IsOpen(s.requests[q].pc)
    ensures Next(net, WithRequest(s, r, Request(c, key, now, Matched, None)), Claim(r)) == WithRequest(s, r, Request(c, key, now, Claimed, None))
  {
    WithTwice(s, r, Request(c, key, now, Matched, None), Request(c, key, now, Claimed, None));
  }

  lemma AllocateMoves(net: HubNetwork, s: System, r: nat, order: seq<nat>, ip: int)
    requires Enabled(s, Allocate(r, order)) && NextTunnelIp(net, RowsOf(s.devices, order)) == Ok(ip)
    ensures Next(net, s, Allocate(r, order)) == Move(s, r, Allocated(ip))
  {
  }

  lemma AllocatedNext(net: HubNetwork, s: System, r: nat, q: Request, order: seq<nat>, ip: int)
    requires q.pc == Claimed && forall d :: d in s.devices <==> d in order
    requires forall i :: 0 <= i < |order| ==> order[i] in s.devices
    requires NextTunnelIp(net, RowsOf(s.devices, order)) == Ok(ip)
    ensures Next(net, WithRequest(s, r, q), Allocate(r, order)) == WithRequest(s, r, q.(pc := Allocated(ip)))
  {
    AllocateMoves(net, WithRequest(s, r, q), r, order, ip);
    WithTwice(s, r, q, q.(pc := Allocated(ip)));
  }

  lemma FlushedNext(net: HubNetwork, s: System, r: nat, q: Request, d: nat, ip: int)
    requires q.pc == Allocated(ip) && d !in s.ids
    requires forall e :: e in s.devices ==> s.devices[e].key != q.key && s.devices[e].ip != ip
    requires forall e :: e in s.pending ==> s.pending[e].key != q.key && s.pending[e].ip != ip
    ensures Next(net, WithRequest(s, r, q), Flush(r, d)) ==
      WithRequest(s.(pending := s.pending[d := Row(q.key, ip)], ids := s.ids + {d}), r, q.(pc := Flushed, device := Some(d)))
  {
    WithTwice(s, r, q, q.(pc := Flushed, device := Some(d)));
  }

  /** The database with the request's device, event and audit row, and its code used. */
  function Enrolled(s: System, c: nat, d: nat, row: Row): System
    requires c in s.codes
  {
    s.(codes := s.codes[c := s.codes[c].(used := true)], devices := s.devices[d := row], events := s.events + {d}, audits := s.audits + {d}, ids := s.ids + {d})
  }

  lemma CommittedNext(net: HubNetwork, s: System, r: nat, q: Request, d: nat, row: Row)
    requires d !in s.pending && q.pc == Flushed && q.device == Some(d) && q.code in s.codes
    ensures Next(net, WithRequest(s.(pending := s.pending[d := row], ids := s.ids + {d}), r, q), Commit(r, true)) ==
      WithRequest(Enrolled(s, q.code, d, row), r, q.(pc := Committed))
  {
    assert s.pending[d := row] - {d} == s.pending;
    WithTwice(s, r, q, q.(pc := Committed));
  }

  lemma AnsweredNext(net: HubNetwork, s: System, r: nat, q: Request)
    requires q.pc == Committed && q.device.Some? && q.device.value in s.devices
    ensures Next(net, Next(net, WithRequest(s, r, q), PeerAdded(r, Added)), Answer(r, true)) == WithRequest(s, r, q.(pc := Done))
  {
    WithTwice(s, r, q, q.(pc := Answering));
    WithTwice(s, r, q.(pc := Answering), q.(pc := Done));
    WithTwice(s, r, q, q.(pc := Done));
  }

  /** One request on its own, from its arrival to its answer. */
  function Alone(steps: seq<Step>, r: nat, c: nat, key: string, now: int, order: seq<nat>, d: nat): seq<Step> {
    steps + [Arrive(r, c, key, now)] + [Claim(r)] + [Allocate(r, order)] + [Flush(r, d)] + [Commit(r, true)] + [PeerAdded(r, Added)] + [Answer(r, true)]
  }

  /** Nobody holds the lock of the code, and no row, committed or not, has the key or the address. */
  predicate Undisturbed(s: System, r: nat, c: nat, key: string, d: nat, ip: int) {
    && r !in s.requests && d !in s.ids
    && (forall q :: q in s.requests && s.requests[q].code == c ==> s.requests[q].pc != Claimed && !s.requests[q].pc.Allocated? && s.requests[q].pc != Flushed)
    && (forall e :: e in s.devices ==> s.devices[e].key != key && s.devices[e].ip != ip)
    && (forall e :: e in s.pending ==> s.pending[e].key != key && s.pending[e].ip != ip)
  }

  lemma FlushedAlone(net: HubNetwork, steps: seq<Step>, r: nat, c: nat, key: string, now: int, order: seq<nat>, d: nat, ip: int)
    requires var s := Exec(net, steps);
      && Undisturbed(s, r, c, key, d, ip) && (forall e :: e in s.devices <==> e in order) && (forall i :: 0 <= i < |order| ==> order[i] in s.devices)
      && NextTunnelIp(net, RowsOf(s.devices, order)) == Ok(ip) && c in s.codes && !s.codes[c].used && s.codes[c].expires > now
    ensures var s := Exec(net, steps);
      Exec(net, steps + [Arrive(r, c, key, now)] + [Claim(r)] + [Allocate(r, order)] + [Flush(r, d)]) ==
      WithRequest(s.(pending := s.pending[d := Row(key, ip)], ids := s.ids + {d}), r, Request(c, key, now, Flushed, Some(d)))
  {
    var s := Exec(net, steps);
    var r1 := steps + [Arrive(r, c, key, now)];
    Extend(net, steps, Arrive(r, c, key, now));
    ArrivedThere(net, s, r, c, key, now);
    Extend(net, r1, Claim(r));
    ClaimedNext(net, s, r, c, key, now);
    Extend(net, r1 + [Claim(r)], Allocate(r, order));
    AllocatedNext(net, s, r, Request(c, key, now, Claimed, None), order, ip);
    Extend(net, r1 + [Claim(r)] + [Allocate(r, order)], Flush(r, d));
    FlushedNext(net, s, r, Request(c, key, now, Allocated(ip), None), d, ip);
  }

  lemma DoneAlone(net: HubNetwork, steps: seq<Step>, s: System, r: nat, q: Request, d: nat, row: Row)
    requires Exec(net, steps) == WithRequest(s.(pending := s.pending[d := row], ids := s.ids + {d}), r, q)
    requires d !in s.pending && q.pc == Flushed && q.device == Some(d) && q.code in s.codes
    ensures Exec(net, steps + [Commit(r, true)] + [PeerAdded(r, Added)] + [Answer(r, true)]) == WithRequest(Enrolled(s, q.code, d, row), r, q.(pc := Done))
  {
    var r1 := steps + [Commit(r, true)];
    Extend(net, steps, Commit(r, true));
    CommittedNext(net, s, r, q, d, row);
    Extend(net, r1, PeerAdded(r, Added));
    Extend(net, r1 + [PeerAdded(r, Added)], Answer(r, true));
    AnsweredNext(net, Enrolled(s, q.code, d, row), r, q.(pc := Committed));
  }

  lemma RefusedAlone(net: HubNetwork, steps: seq<Step>, r: nat, c: nat, key: string, now: int, order: seq<nat>, d: nat)
    requires var s := Exec(net, steps); r !in s.requests && c in s.codes && (s.codes[c].used || s.codes[c].expires <= now)
    ensures Exec(net, Alone(steps, r, c, key, now, order, d)) == WithRequest(Exec(net, steps), r, Request(c, key, now, Failed, None))
  {
    var r1 := steps + [Arrive(r, c, key, now)];
    var r3 := r1 + [Claim(r)] + [Allocate(r, order)];
    var r5 := r3 + [Flush(r, d)] + [Commit(r, true)];
    Extend(net, steps, Arrive(r, c, key, now));
    ArrivedThere(net, Exec(net, steps), r, c, key, now);
    StaysRefused(net, r1, r, Claim(r));
    StaysRefused(net, r1 + [Claim(r)], r, Allocate(r, order));
    StaysRefused(net, r3, r, Flush(r, d));
    StaysRefused(net, r3 + [Flush(r, d)], r, Commit(r, true));
    StaysRefused(net, r5, r, PeerAdded(r, Added));
    StaysRefused(net, r5 + [PeerAdded(r, Added)], r, Answer(r, true));
  }

  lemma StaysRefused(net: HubNetwork, steps: seq<Step>, r: nat, step: Step)
    requires At(Exec(net, steps), r, Failed) && !step.NewCode? && !step.DeleteDevice? && step.r == r
    ensures Exec(net, steps + [step]) == Exec(net, steps)
  {
    Extend(net, steps, step);
  }

  /** After every run: a request that nobody disturbs enrolls its device if and only if its code is
      unused and not expired. Then the code is used, the device stands under its key and the
      allocated address with an event and an audit row; else nothing but the refusal is left. */
  lemma AnUndisturbedRequestEnrolls(net: HubNetwork, steps: seq<Step>, r: nat, c: nat, key: string, now: int, order: seq<nat>, d: nat, ip: int)
    requires var s := Exec(net, steps);
      && Undisturbed(s, r, c, key, d, ip) && (forall e :: e in s.devices <==> e in order) && (forall i :: 0 <= i < |order| ==> order[i] in s.devices)
      && NextTunnelIp(net, RowsOf(s.devices, order)) == Ok(ip) && c in s.codes
    ensures var s, after := Exec(net, steps), Exec(net, Alone(steps, r, c, key, now, order, d));
      if !s.codes[c].used && s.codes[c].expires > now then
        after == s.(codes := s.codes[c := Code(s.codes[c].expires, true)], devices := s.devices[d := Row(key, ip)],
                    events := s.events + {d}, audits := s.audits + {d}, ids := s.ids + {d},
                    requests := s.requests[r := Request(c, key, now, Done, Some(d))])
      else
        after == s.(requests := s.requests[r := Request(c, key, now, Failed, None)])
  {
    var s := Exec(net, steps);
    if !s.codes[c].used && s.codes[c].expires > now {
      RunKeeps(net, steps);
      FlushedAlone(net, steps, r, c, key, now, order, d, ip);
      DoneAlone(net, steps + [Arrive(r, c, key, now)] + [Claim(r)] + [Allocate(r, order)] + [Flush(r, d)], s, r, Request(c, key, now, Flushed, Some(d)), d, Row(key, ip));
    } else {
      RefusedAlone(net, steps, r, c, key, now, order, d);
    }
  }

  /** The run in which `add_peer` times out for the only request there ever was. */
  function TimedOut(key: string): seq<Step> {
    [NewCode(5, 100)] + [Arrive(0, 5, key, 10)] + [Claim(0)] + [Allocate(0, [])] + [Flush(0, 7)] + [Commit(0, true)] + [PeerAdded(0, Raised)]
  }

  lemma ClaimedThere(net: HubNetwork, key: string)
    ensures Exec(net, [NewCode(5, 100)] + [Arrive(0, 5, key, 10)] + [Claim(0)]) ==
      System(map[5 := Code(100, false)], map[], {}, {}, {}, map[], map[0 := Request(5, key, 10, Claimed, None)], {}, {})
  {
    var r1 := [NewCode(5, 100)];
    var r2 := r1 + [Arrive(0, 5, key, 10)];
    Extend(net, [], NewCode(5, 100));
    Extend(net, r1, Arrive(0, 5, key, 10));
    assert Exec(net, r2).requests == map[0 := Request(5, key, 10, Matched, None)];
    Extend(net, r2, Claim(0));
  }

  lemma FlushedThere(net: HubNetwork, key: string)
    requires NextTunnelIp(net, []).Ok?
    ensures var ip := NextTunnelIp(net, []).value;
      Exec(net, [NewCode(5, 100)] + [Arrive(0, 5, key, 10)] + [Claim(0)] + [Allocate(0, [])] + [Flush(0, 7)]) ==
      System(map[5 := Code(100, false)], map[], {}, {}, {}, map[7 := Row(key, ip)], map[0 := Request(5, key, 10, Flushed, Some(7))], {7}, {})
  {
    var r3 := [NewCode(5, 100)] + [Arrive(0, 5, key, 10)] + [Claim(0)];
    ClaimedThere(net, key);
    Extend(net, r3, Allocate(0, []));
    assert RowsOf(map[], []) == [];
    Extend(net, r3 + [Allocate(0, [])], Flush(0, 7));
  }

  /** The request has failed, and code, device, event and audit row stay as after a success. */
  lemma ATimeoutKeepsTheEnrollment(net: HubNetwork, key: string)
    requires NextTunnelIp(net, []).Ok?
    ensures var s := Exec(net, TimedOut(key));
      && At(s, 0, Kept) && s.codes == map[5 := Code(100, true)]
      && s.devices == map[7 := Row(key, NextTunnelIp(net, []).value)] && s.events == {7} && s.audits == {7}
  {
    FlushedThere(net, key);
    var r5 := [NewCode(5, 100)] + [Arrive(0, 5, key, 10)] + [Claim(0)] + [Allocate(0, [])] + [Flush(0, 7)];
    var r6 := r5 + [Commit(0, true)];
    Extend(net, r5, Commit(0, true));
    Extend(net, r6, PeerAdded(0, Raised));
  }

  lemma FromFlushed(net: HubNetwork, key: string, steps: seq<Step>)
    requires NextTunnelIp(net, []).Ok?
    requires Exec(net, steps) ==
      System(map[5 := Code(100, false)], map[], {}, {}, {}, map[7 := Row(key, NextTunnelIp(net, []).value)], map[0 := Request(5, key, 10, Flushed, Some(7))], {7}, {})
    ensures Exec(net, steps + [Commit(0, true)] + [DeleteDevice(7)] + [PeerAdded(0, Refused)]) ==
      System(map[5 := Code(100, true)], map[], {}, {}, {7}, map[], map[0 := Request(5, key, 10, Undoing, Some(7))], {7}, {7})
  {
    var r1 := steps + [Commit(0, true)];
    Extend(net, steps, Commit(0, true));
    Extend(net, r1, DeleteDevice(7));
    Extend(net, r1 + [DeleteDevice(7)], PeerAdded(0, Refused));
  }

  /** After some run a request has failed, was compensated, and still left an audit row: its device was
      deleted while the peer was being added, and the row no longer names it. */
  lemma ADeletionHidesTheAuditRow(net: HubNetwork, key: string)
    requires NextTunnelIp(net, []).Ok?
    ensures exists steps: seq<Step> ::
      var s := Exec(net, steps); At(s, 0, Failed) && s.codes == map[5 := Code(100, false)] && s.devices == map[] && s.unnamed == {7}
  {
    FlushedThere(net, key);
    var r5 := [NewCode(5, 100)] + [Arrive(0, 5, key, 10)] + [Claim(0)] + [Allocate(0, [])] + [Flush(0, 7)];
    FromFlushed(net, key, r5);
    var r8 := r5 + [Commit(0, true)] + [DeleteDevice(7)] + [PeerAdded(0, Refused)];
    CompensatedThere(net, key, r8);
  }

  lemma CompensatedThere(net: HubNetwork, key: string, steps: seq<Step>)
    requires Exec(net, steps) ==
      System(map[5 := Code(100, true)], map[], {}, {}, {7}, map[], map[0 := Request(5, key, 10, Undoing, Some(7))], {7}, {7})
    ensures var s := Exec(net, steps + [Compensate(0, true)]);
      At(s, 0, Failed) && s.codes == map[5 := Code(100, false)] && s.devices == map[] && s.unnamed == {7}
  {
    Extend(net, steps, Compensate(0, true));
  }

  /** A request that succeeded left its device under its key, its event and its audit row; when an
      administrator deletes the device, the audit row stays without its name. */
  lemma CompletedRequestsLeaveADevice(net: HubNetwork, steps: seq<Step>, r: nat)
    requires At(Exec(net, steps), r, Done)
    ensures var s := Exec(net, steps);
      s.requests[r].device.Some? && Present(s, s.requests[r].device.value, s.requests[r].key)
  {
    RunKeeps(net, steps);
    var s := Exec(net, steps);
    assert RequestOk(net, s, s.requests[r]);
  }

  /** The step answers request `r` while its device is still there. */
  predicate Answers(s: System, step: Step, r: nat) {
    && step == Answer(r, true) && At(s, r, Answering)
    && s.requests[r].device.Some? && s.requests[r].device.value in s.devices
  }

  ghost predicate AnsweredAt(net: HubNetwork, steps: seq<Step>, k: nat, r: nat) {
    k < |steps| && Answers(Exec(net, steps[..k]), steps[k], r)
  }

  lemma DoneStepByStep(net: HubNetwork, s: System, step: Step, r: nat)
    ensures At(Next(net, s, step), r, Done) <==> At(s, r, Done) || Answers(s, step, r)
  {
  }

  lemma AnsweredMore(net: HubNetwork, steps: seq<Step>, r: nat)
    requires steps != []
    ensures var n := |steps| - 1;
      (exists k: nat :: AnsweredAt(net, steps, k, r)) <==>
      (exists k: nat :: AnsweredAt(net, steps[..n], k, r)) || Answers(Exec(net, steps[..n]), steps[n], r)
  {
    var n := |steps| - 1;
    forall k: nat | k < n ensures AnsweredAt(net, steps, k, r) <==> AnsweredAt(net, steps[..n], k, r) {
      assert steps[..n][..k] == steps[..k];
    }
    if k: nat :| AnsweredAt(net, steps[..n], k, r) {
      assert AnsweredAt(net, steps, k, r);
    }
    assert AnsweredAt(net, steps, n, r) <==> Answers(Exec(net, steps[..n]), steps[n], r);
  }

  /** A request has succeeded if and only if some step of the run answered it, after its peer was added and
      while its device was in the database. */
  lemma {:induction false} DoneExactlyWhen(net: HubNetwork, steps: seq<Step>, r: nat)
    ensures At(Exec(net, steps), r, Done) <==> exists k: nat :: AnsweredAt(net, steps, k, r)
  {
    if steps == [] {
      assert forall k: nat :: !AnsweredAt(net, steps, k, r);
    } else {
      var n := |steps| - 1;
      DoneExactlyWhen(net, steps[..n], r);
      DoneStepByStep(net, Exec(net, steps[..n]), steps[n], r);
      AnsweredMore(net, steps, r);
    }
  }

  /** Devices always have distinct keys, and distinct host addresses that are not the Hub's. */
  lemma DevicesStayDistinct(net: HubNetwork, steps: seq<Step>)
    ensures var rows := Exec(net, steps).devices;
      && (forall d :: d in rows ==> net.base < rows[d].ip < net.base + net.size - 1 && rows[d].ip != net.hub)
      && (forall d, e :: d in rows && e in rows && d != e ==> rows[d].ip != rows[e].ip && rows[d].key != rows[e].key)
  {
    RunKeeps(net, steps);
    var s := Exec(net, steps);
    FewerRows(net, AllRows(s), s.devices);
  }

  lemma CompensationFollows(net: HubNetwork, s: System, r: nat)
    requires Enabled(s, Commit(r, true))
    ensures Enabled(Apply(net, s, Commit(r, true)), PeerAdded(r, Refused))
    ensures Enabled(Apply(net, Apply(net, s, Commit(r, true)), PeerAdded(r, Refused)), Compensate(r, true))
  {
  }

  /** Compensation is the inverse of the commit: the database is as if the commit had failed. */
  lemma CompensationUndoesCommit(net: HubNetwork, s: System, r: nat)
    requires Inv(net, s) && Enabled(s, Commit(r, true))
    ensures Enabled(Apply(net, s, Commit(r, true)), PeerAdded(r, Refused))
    ensures Enabled(Apply(net, Apply(net, s, Commit(r, true)), PeerAdded(r, Refused)), Compensate(r, true))
    ensures Apply(net, Apply(net, Apply(net, s, Commit(r, true)), PeerAdded(r, Refused)), Compensate(r, true)) == Apply(net, s, Commit(r, false))
  {
    CompensationFollows(net, s, r);
    var q, d := s.requests[r], s.requests[r].device.value;
    assert RequestOk(net, s, q);
    assert Holder(s, r, q.code) && !s.codes[q.code].used;
    UndoneDatabase(s.devices, s.events, s.audits, d, s.pending[d]);
    UndoneCode(s.codes, q.code);
    UndoneRequest(s.requests, r);
  }

  lemma UndoneDatabase(devices: map<nat, Row>, events: set<nat>, audits: set<nat>, d: nat, row: Row)
    requires d !in devices && d !in events && d !in audits
    ensures devices[d := row] - {d} == devices && events + {d} - {d} == events && audits + {d} - {d} == audits
  {
  }

  lemma UndoneCode(codes: map<nat, Code>, c: nat)
    requires c in codes && !codes[c].used
    ensures codes[c := codes[c].(used := true)][c := codes[c].(used := true).(used := false)] == codes
  {
  }

  lemma UndoneRequest(requests: map<nat, Request>, r: nat)
    requires r in requests
    ensures var q := requests[r];
      requests[r := q.(pc := Committed)][r := q.(pc := Committed).(pc := Undoing)][r := q.(pc := Committed).(pc := Undoing).(pc := Failed)]
      == requests[r := q.(pc := Failed)]
  {
  }
}
