/**
 The relay manager of `tcp_relay.py` as a value, and what each of its uninterrupted sections
 does to that value. `TcpRelay` proves the imperative manager against these functions;
 `RelayAccess` interleaves them.
 */
module TcpRelaySpec {

  /** The frozen dataclass callers hold; it is compared by value. */
  datatype Allocation = Allocation(device: nat, publicHost: string, port: int, expiresAt: int)

  /** The two stream writers of the handler running as `task`. */
  datatype Writer = Downstream(task: nat) | Upstream(task: nat)

  datatype Relay = Relay(
    allocation: Allocation,
    closing: bool,
    active: int,
    writers: set<Writer>,
    tasks: set<nat>)

  /** `objects` lists every relay ever published; a relay's index is its identity.
      `relays` is the `_relays` dictionary, from port to identity. `withdrawn` are the relays
      that were popped again because their server did not start to serve; nobody marks them
      closing. */
  datatype Manager = Manager(relays: map<int, nat>, objects: seq<Relay>, withdrawn: set<nat>)

  const EMPTY := Manager(map[], [], {})

  predicate Live(m: Manager, id: nat) {
    id < |m.objects| && !m.objects[id].closing && id !in m.withdrawn
  }

  /** The relays that `close_device` collects. */
  function LiveOf(m: Manager, device: nat): set<nat>
    requires Consistent(m)
  {
    set port | port in m.relays && m.objects[m.relays[port]].allocation.device == device :: m.relays[port]
  }

  function Wanted(m: Manager, wanted: Allocation -> bool): set<nat>
    requires Consistent(m)
  {
    set port | port in m.relays && wanted(m.objects[m.relays[port]].allocation) :: m.relays[port]
  }

  function AllLive(m: Manager): set<nat> {
    set port | port in m.relays :: m.relays[port]
  }

  /** Every dictionary entry names a live relay and sits under that relay's own port; and
      conversely every relay that was neither closed nor withdrawn is in the dictionary. */
  ghost predicate Consistent(m: Manager) {
    && (forall port :: port in m.relays ==>
          && Live(m, m.relays[port])
          && m.objects[m.relays[port]].allocation.port == port)
    && (forall id: nat :: Live(m, id) ==>
          && m.objects[id].allocation.port in m.relays
          && m.relays[m.objects[id].allocation.port] == id)
    && (forall id :: id in m.withdrawn ==> id < |m.objects| && !m.objects[id].closing)
  }

  function NewRelay(a: Allocation): Relay {
    Relay(a, false, 0, {}, {})
  }

  function Publish(m: Manager, a: Allocation): Manager {
    Manager(m.relays[a.port := |m.objects|], m.objects + [NewRelay(a)], m.withdrawn)
  }

  /** `start_serving` raised: the port is popped again, and nothing else. */
  function Withdraw(m: Manager, id: nat): Manager
    requires id < |m.objects|
  {
    Manager(m.relays - {m.objects[id].allocation.port}, m.objects, m.withdrawn + {id})
  }

  function Update(m: Manager, id: nat, r: Relay): Manager
    requires id < |m.objects|
  {
    m.(objects := m.objects[id := r])
  }

  /** `_detach_relay`: mark it closing and pop whatever its port maps to. */
  function Detach(m: Manager, id: nat): Manager
    requires id < |m.objects|
  {
    var r := m.objects[id];
    Manager(m.relays - {r.allocation.port}, m.objects[id := r.(closing := true)], m.withdrawn)
  }

  /** The effect of detaching a set of relays under one hold of the lock. */
  function DetachSet(m: Manager, ids: set<nat>): Manager
    requires forall id :: id in ids ==> id < |m.objects|
  {
    Manager(
      map port | port in m.relays && m.relays[port] !in ids :: m.relays[port],
      seq(|m.objects|, i requires 0 <= i < |m.objects| =>
        if i in ids then m.objects[i].(closing := true) else m.objects[i]),
      m.withdrawn)
  }

  /** `close_allocation`: nothing unless the port still holds an equal allocation. */
  function MatchAllocation(m: Manager, a: Allocation): set<nat>
    requires Consistent(m)
  {
    if a.port in m.relays && m.objects[m.relays[a.port]].allocation == a then {m.relays[a.port]} else {}
  }

  /** `_expire_relay`: nothing unless the port still holds this very relay. */
  function MatchIdentity(m: Manager, id: nat): set<nat>
    requires id < |m.objects|
  {
    var port := m.objects[id].allocation.port;
    if port in m.relays && m.relays[port] == id then {id} else {}
  }

  // ---------- The sections of `_handle_client`, each on the relay it serves ----------

  /** From the start of the handler to its first wait; `admitted` says which wait. */
  predicate Admits(r: Relay, peerAllowed: bool, maxConnections: int) {
    !r.closing && peerAllowed && r.active < maxConnections
  }

  function Admit(r: Relay, task: nat, peerAllowed: bool, maxConnections: int): Relay {
    var r' := r.(tasks := r.tasks + {task});
    if Admits(r, peerAllowed, maxConnections)
    then r'.(active := r.active + 1, writers := r.writers + {Downstream(task)})
    else r'.(writers := r.writers - {Downstream(task)})
  }

  /** The upstream connection is open and the relay was not closed meanwhile. */
  function StartForwarding(r: Relay, task: nat): Relay {
    r.(writers := r.writers + {Upstream(task)})
  }

  function DropUpstream(r: Relay, task: nat): Relay {
    r.(writers := r.writers - {Upstream(task)})
  }

  function DropDownstream(r: Relay, task: nat): Relay {
    r.(writers := r.writers - {Downstream(task)})
  }

  /** The last lines of the handler, reached only if no wait before them was cancelled. */
  function Release(r: Relay, task: nat, admitted: bool): Relay {
    r.(active := if admitted then r.active - 1 else r.active, tasks := r.tasks - {task})
  }

  // ---------- Facts about detaching ----------

  lemma PublishConsistent(m: Manager, a: Allocation)
    requires Consistent(m) && a.port !in m.relays
    ensures Consistent(Publish(m, a))
  {
    var p := Publish(m, a);
    assert forall id: nat :: Live(p, id) <==> Live(m, id) || id == |m.objects|;
  }

  /** Withdrawing a live relay takes it, and no other, out of the dictionary. */
  lemma WithdrawConsistent(m: Manager, id: nat)
    requires Consistent(m) && Live(m, id)
    ensures Consistent(Withdraw(m, id))
    ensures forall other: nat :: Live(Withdraw(m, id), other) <==> Live(m, other) && other != id
  {
    var w := Withdraw(m, id);
    assert m.relays[m.objects[id].allocation.port] == id;
    forall other: nat | Live(w, other)
      ensures m.objects[other].allocation.port in w.relays && w.relays[m.objects[other].allocation.port] == other
    {
      assert Live(m, other);
    }
  }

  lemma LiveIsMapped(m: Manager, ids: set<nat>)
    requires Consistent(m)
    ensures ids <= AllLive(m) <==> forall id :: id in ids ==> Live(m, id)
  {
    forall id | id in ids && Live(m, id) ensures id in AllLive(m) {
      assert m.objects[id].allocation.port in m.relays;
    }
  }

  lemma DetachSetConsistent(m: Manager, ids: set<nat>)
    requires Consistent(m) && ids <= AllLive(m)
    ensures forall id :: id in ids ==> id < |m.objects|
    ensures Consistent(DetachSet(m, ids))
    ensures AllLive(DetachSet(m, ids)) == AllLive(m) - ids
  {
    var d := DetachSet(m, ids);
    LiveIsMapped(m, ids);
    forall id: nat | Live(d, id)
      ensures d.objects[id].allocation.port in d.relays && d.relays[d.objects[id].allocation.port] == id
    {
      assert Live(m, id);
    }
    forall id | id in AllLive(m) - ids ensures id in AllLive(d) {
      var port :| port in m.relays && m.relays[port] == id;
      assert port in d.relays;
    }
  }

  /** Detaching one by one, in whatever order the dictionary yields, is detaching the set. */
  lemma DetachStep(m: Manager, ids: set<nat>, id: nat)
    requires Consistent(m) && ids <= AllLive(m) && id in AllLive(m) && id !in ids
    ensures Consistent(DetachSet(m, ids))
    ensures id < |DetachSet(m, ids).objects|
    ensures Detach(DetachSet(m, ids), id) == DetachSet(m, ids + {id})
  {
    DetachSetConsistent(m, ids);
    var d := DetachSet(m, ids);
    var one, all := Detach(d, id), DetachSet(m, ids + {id});
    assert one.objects == all.objects;
    forall port ensures port in one.relays <==> port in all.relays {
      if port in m.relays && m.relays[port] == id {
        assert m.objects[id].allocation.port == port;
      }
    }
    assert one.relays == all.relays;
  }

  lemma DetachNone(m: Manager)
    ensures DetachSet(m, {}) == m
  {
    assert DetachSet(m, {}).objects == m.objects;
    assert DetachSet(m, {}).relays == m.relays;
  }
}
