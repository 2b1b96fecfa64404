/**
 The relay manager of `tcp_relay.py` as the object it is. Each method is one uninterrupted
 section of a coroutine, and is proved to do to the manager's value what `TcpRelaySpec` says.
 Sockets, clocks and the random shuffle are parameters.
 */
module TcpRelay {
  import opened TcpRelaySpec

  class RelayState {
    ghost const id: nat
    const allocation: Allocation
    var activeConnections: int
    var writers: set<Writer>
    var tasks: set<nat>
    var closing: bool

    constructor (ghost id: nat, a: Allocation)
      ensures this.id == id && Value() == NewRelay(a)
    {
      this.id := id;
      allocation := a;
      activeConnections, writers, tasks, closing := 0, {}, {}, false;
    }

    ghost function Value(): Relay
      reads this
    {
      Relay(allocation, closing, activeConnections, writers, tasks)
    }
  }

  datatype Created = NoPortAvailable | NotServing(state: RelayState) | Relayed(state: RelayState)

  class TcpRelayManager {
    const portMin: int
    const portMax: int
    const maxConnections: int
    var relays: map<int, RelayState>
    ghost var objects: seq<RelayState>
    ghost var withdrawn: set<nat>

    constructor (portMin: int, portMax: int, maxConnections: int)
      requires 1 <= portMin <= portMax <= 65535 && 1 <= maxConnections
      ensures Valid() && View() == EMPTY
      ensures this.portMin == portMin && this.portMax == portMax && this.maxConnections == maxConnections
    {
      this.portMin, this.portMax, this.maxConnections := portMin, portMax, maxConnections;
      relays := map[];
      objects := [];
      withdrawn := {};
    }

    ghost predicate Valid()
      reads this, objects
    {
      && (forall i :: 0 <= i < |objects| ==> objects[i].id == i)
      && (forall port :: port in relays ==> relays[port].id < |objects| && objects[relays[port].id] == relays[port])
      && Consistent(View())
    }

    ghost function View(): Manager
      reads this, objects
    {
      Manager(map port | port in relays :: relays[port].id,
              seq(|objects|, i requires 0 <= i < |objects| reads this, objects => objects[i].Value()),
              withdrawn)
    }

    /** `state` is one of this manager's relays, live or already detached. */
    ghost predicate Knows(state: RelayState)
      reads this
    {
      state.id < |objects| && objects[state.id] == state
    }

    /** Put a relay on a free port into the dictionary. */
    method Register(a: Allocation) returns (state: RelayState)
      requires Valid() && a.port !in relays
      modifies this
      ensures Valid() && View() == Publish(old(View()), a)
      ensures state.allocation == a && state.id == |old(View()).objects| && Knows(state)
    {
      ghost var before := View();
      state := new RelayState(|objects|, a);
      relays := relays[a.port := state];
      objects := objects + [state];
      assert View().objects == before.objects + [NewRelay(a)];
      assert View().relays == before.relays[a.port := |before.objects|];
      PublishConsistent(before, a);
    }

    /** The branch of `create_relay` for a server that does not start to serve. */
    method WithdrawRelay(state: RelayState)
      requires Valid() && Knows(state) && Live(View(), state.id)
      modifies this
      ensures Valid() && View() == Withdraw(old(View()), state.id) && objects == old(objects)
    {
      ghost var before := View();
      assert before.objects[state.id] == state.Value();
      relays := relays - {state.allocation.port};
      withdrawn := withdrawn + {state.id};
      assert View().objects == Withdraw(before, state.id).objects;
      assert View().relays == Withdraw(before, state.id).relays;
      WithdrawConsistent(before, state.id);
    }

    /** The port search of `create_relay`: the first candidate that is neither taken nor refused
        by the operating system. `serves` says whether its server then starts to serve. */
    method CreateRelay(device: nat, publicHost: string, expiresAt: int, candidates: seq<int>, bindable: int -> bool, serves: bool)
      returns (created: Created)
      requires Valid()
      requires forall port :: port in candidates <==> portMin <= port <= portMax
      modifies this
      ensures Valid()
      ensures created.NoPortAvailable? <==> forall port :: portMin <= port <= portMax ==> port in old(View()).relays || !bindable(port)
      ensures created.NoPortAvailable? ==> View() == old(View())
      ensures created.Relayed? ==> serves
      ensures created.NotServing? ==> !serves
      ensures !created.NoPortAvailable? ==>
        && var a := created.state.allocation;
        && portMin <= a.port <= portMax && a.port !in old(View()).relays && bindable(a.port)
        && a == Allocation(device, publicHost, a.port, expiresAt)
        && created.state.id == |old(View()).objects| && Knows(created.state)
        && View() == (if serves then Publish(old(View()), a) else Withdraw(Publish(old(View()), a), created.state.id))
        && exists i :: 0 <= i < |candidates| && candidates[i] == a.port
             && forall j :: 0 <= j < i ==> candidates[j] in old(View()).relays || !bindable(candidates[j])
    {
      var i := 0;
      while i < |candidates| && (candidates[i] in relays || !bindable(candidates[i]))
        invariant 0 <= i <= |candidates|
        invariant forall j :: 0 <= j < i ==> candidates[j] in relays || !bindable(candidates[j])
      {
        i := i + 1;
      }
      if i == |candidates| {
        forall port | portMin <= port <= portMax ensures port in View().relays || !bindable(port) {
          assert port in candidates;
        }
        return NoPortAvailable;
      }
      var port := candidates[i];
      assert port in candidates;
      var state := Register(Allocation(device, publicHost, port, expiresAt));
      if !serves {
        assert Live(View(), state.id);
        WithdrawRelay(state);
        return NotServing(state);
      }
      created := Relayed(state);
    }

    /** `_detach_relay` */
    method DetachRelay(state: RelayState)
      requires Valid() && Knows(state) && Live(View(), state.id)
      modifies this`relays, state`closing
      ensures Valid() && View() == Detach(old(View()), state.id)
    {
      ghost var before := View();
      state.closing := true;
      relays := relays - {state.allocation.port};
      assert View().objects == Detach(before, state.id).objects;
      assert View().relays == Detach(before, state.id).relays;
      DetachNone(before);
      DetachStep(before, {}, state.id) by {
        assert before.objects[state.id].allocation.port in before.relays;
      }
    }

    method CloseAllocation(a: Allocation) returns (closed: bool)
      requires Valid()
      modifies this`relays, objects
      ensures Valid()
      ensures View() == DetachSet(old(View()), MatchAllocation(old(View()), a))
      ensures closed <==> MatchAllocation(old(View()), a) != {}
    {
      ghost var before := View();
      DetachNone(before);
      if a.port !in relays || relays[a.port].allocation != a {
        return false;
      }
      ghost var id := relays[a.port].id;
      assert before.relays[a.port] == id;
      DetachStep(before, {}, id);
      DetachRelay(relays[a.port]);
      assert {} + {id} == MatchAllocation(before, a);
      return true;
    }

    /** The detaching part of `_expire_relay`, after its sleep. */
    method ExpireRelay(state: RelayState) returns (expired: bool)
      requires Valid() && Knows(state)
      modifies this`relays, objects
      ensures Valid()
      ensures View() == DetachSet(old(View()), MatchIdentity(old(View()), state.id))
      ensures expired <==> MatchIdentity(old(View()), state.id) != {}
    {
      ghost var before := View();
      DetachNone(before);
      if state.allocation.port !in relays || relays[state.allocation.port] != state {
        return false;
      }
      assert before.relays[state.allocation.port] == state.id;
      DetachStep(before, {}, state.id);
      DetachRelay(state);
      assert {} + {state.id} == MatchIdentity(before, state.id);
      return true;
    }

    /** Detach every listed relay, in list order. */
    method DetachEach(states: seq<RelayState>)
      requires Valid()
      requires forall i :: 0 <= i < |states| ==> Knows(states[i])
      requires Ids(states) <= AllLive(View())
      requires forall i, j :: 0 <= i < j < |states| ==> states[i] != states[j]
      modifies this`relays, objects
      ensures Valid()
      ensures forall id :: id in Ids(states) ==> id < |old(View()).objects|
      ensures View() == DetachSet(old(View()), Ids(states))
    {
      ghost var before := View();
      DetachNone(before);
      assert Ids(states[..0]) == {};
      for i := 0 to |states|
        invariant objects == old(objects)
        invariant Ids(states[..i]) <= Ids(states)
        invariant Valid() && View() == DetachSet(before, Ids(states[..i]))
      {
        IdsGrow(states, i);
        NotYet(states, i);
        DetachStep(before, Ids(states[..i]), states[i].id);
        LiveIsMapped(before, Ids(states));
        assert Live(View(), states[i].id);
        DetachRelay(states[i]);
      }
      assert states[..|states|] == states;
    }

    lemma NotYet(states: seq<RelayState>, i: nat)
      requires i < |states|
      requires forall k :: 0 <= k < |states| ==> Knows(states[k])
      requires forall k, j :: 0 <= k < j < |states| ==> states[k] != states[j]
      ensures states[i].id !in Ids(states[..i]) && states[i].id in Ids(states)
    {
    }

    static ghost function Ids(states: seq<RelayState>): set<nat> {
      set i | 0 <= i < |states| :: states[i].id
    }

    static lemma IdsGrow(states: seq<RelayState>, i: nat)
      requires i < |states|
      ensures Ids(states[..i+1]) == Ids(states[..i]) + {states[i].id}
      ensures Ids(states[..i+1]) <= Ids(states)
    {
      forall n | n in Ids(states[..i]) + {states[i].id} ensures n in Ids(states[..i+1]) {
        if n != states[i].id {
          var k :| 0 <= k < i && states[..i][k].id == n;
          assert states[..i+1][k].id == n;
        } else {
          assert states[..i+1][i].id == n;
        }
      }
    }

    /** `order` is the order in which the dictionary yields its keys. */
    ghost predicate IterationOrder(order: seq<int>)
      reads this
    {
      (forall port :: port in order <==> port in relays) && forall i, j :: 0 <= i < j < |order| ==> order[i] != order[j]
    }

    /** The list comprehension over `_relays.values()`. */
    method Collect(order: seq<int>, wanted: Allocation -> bool) returns (states: seq<RelayState>)
      requires Valid() && IterationOrder(order)
      ensures forall i :: 0 <= i < |states| ==> Knows(states[i])
      ensures forall i, j :: 0 <= i < j < |states| ==> states[i] != states[j]
      ensures Ids(states) == Wanted(View(), wanted)
    {
      states := [];
      for i := 0 to |order|
        invariant forall k :: 0 <= k < |states| ==>
          && states[k].allocation.port in order[..i] && states[k].allocation.port in relays
          && relays[states[k].allocation.port] == states[k] && wanted(states[k].allocation)
        invariant forall k, j :: 0 <= k < j < |states| ==> states[k] != states[j]
        invariant forall k :: 0 <= k < i && order[k] in relays && wanted(relays[order[k]].allocation) ==> relays[order[k]] in states
      {
        var port := order[i];
        assert port in relays && View().objects[View().relays[port]].allocation.port == port;
        assert order[..i+1] == order[..i] + [port];
        if wanted(relays[port].allocation) {
          states := states + [relays[port]];
        }
      }
      CollectedIsWanted(states, wanted);
    }

    lemma CollectedIsWanted(states: seq<RelayState>, wanted: Allocation -> bool)
      requires Valid()
      requires forall k :: 0 <= k < |states| ==>
        && states[k].allocation.port in relays && relays[states[k].allocation.port] == states[k] && wanted(states[k].allocation)
      requires forall port :: port in relays && wanted(relays[port].allocation) ==> relays[port] in states
      ensures Ids(states) == Wanted(View(), wanted)
    {
      forall id | id in Wanted(View(), wanted) ensures id in Ids(states) {
        var port :| port in View().relays && View().relays[port] == id && wanted(View().objects[id].allocation);
        var i :| 0 <= i < |states| && states[i] == relays[port];
        assert states[i].id == id;
      }
      forall id | id in Ids(states) ensures id in Wanted(View(), wanted) {
        var k :| 0 <= k < |states| && states[k].id == id;
        assert View().objects[id].allocation == states[k].allocation;
        assert View().relays[states[k].allocation.port] == id;
      }
    }

    /** Different relays have different identities. */
    lemma {:induction false} IdsCount(states: seq<RelayState>)
      requires forall i :: 0 <= i < |states| ==> Knows(states[i])
      requires forall i, j :: 0 <= i < j < |states| ==> states[i] != states[j]
      ensures |Ids(states)| == |states|
    {
      if states == [] {
        assert Ids(states) == {};
      } else {
        var n := |states| - 1;
        IdsCount(states[..n]);
        IdsGrow(states, n);
        NotYet(states, n);
        assert states[..n+1] == states;
      }
    }

    method CloseDevice(device: nat, order: seq<int>) returns (states: seq<RelayState>, closed: nat)
      requires Valid() && IterationOrder(order)
      modifies this`relays, objects
      ensures Valid()
      ensures View() == DetachSet(old(View()), LiveOf(old(View()), device))
      ensures Ids(states) == LiveOf(old(View()), device) && closed == |LiveOf(old(View()), device)|
    {
      var wanted := (a: Allocation) => a.device == device;
      states := Collect(order, wanted);
      assert Wanted(View(), wanted) == LiveOf(View(), device);
      IdsCount(states);
      DetachEach(states);
      closed := |states|;
    }

    method CloseAll(order: seq<int>) returns (states: seq<RelayState>, closed: nat)
      requires Valid() && IterationOrder(order)
      modifies this`relays, objects
      ensures Valid()
      ensures View() == DetachSet(old(View()), AllLive(old(View())))
      ensures Ids(states) == AllLive(old(View())) && closed == |AllLive(old(View()))|
    {
      var wanted := (a: Allocation) => true;
      states := Collect(order, wanted);
      assert Wanted(View(), wanted) == AllLive(View());
      assert forall port :: port in relays ==> port in View().relays && View().relays[port] == relays[port].id;
      assert Ids(states) == set port | port in relays :: relays[port].id;
      IdsCount(states);
      DetachEach(states);
      closed := |states|;
    }

    // ---------- `_handle_client`, section by section ----------

    /** A section that changes one relay's counter, writers or tasks leaves the rest alone. */
    twostate lemma OneRelayChanged(state: RelayState)
      requires old(Valid()) && old(Knows(state)) && unchanged(this)
      requires forall i :: 0 <= i < |objects| && objects[i] != state ==> unchanged(objects[i])
      requires state.closing == old(state.closing)
      ensures Valid() && state.id < |old(View()).objects| && View() == Update(old(View()), state.id, state.Value())
    {
      assert View().objects == old(View()).objects[state.id := state.Value()];
      assert View().relays == old(View()).relays;
      assert forall i :: 0 <= i < |objects| ==>
        && View().objects[i].allocation == old(View()).objects[i].allocation
        && View().objects[i].closing == old(View()).objects[i].closing;
      assert Consistent(View());
    }

    method BeginClient(state: RelayState, task: nat, peerAllowed: bool) returns (admitted: bool)
      requires Valid() && Knows(state)
      modifies state
      ensures admitted == Admits(old(state.Value()), peerAllowed, maxConnections)
      ensures Valid() && state.id < |old(View()).objects|
      ensures View() == Update(old(View()), state.id, Admit(old(state.Value()), task, peerAllowed, maxConnections))
    {
      state.tasks := state.tasks + {task};
      admitted := !state.closing && peerAllowed && state.activeConnections < maxConnections;
      if !admitted {
        state.writers := state.writers - {Downstream(task)};
      } else {
        state.activeConnections := state.activeConnections + 1;
        state.writers := state.writers + {Downstream(task)};
      }
      OneRelayChanged(state);
    }

    method UpstreamOpened(state: RelayState, task: nat) returns (forwards: bool)
      requires Valid() && Knows(state)
      modifies state
      ensures forwards == !old(state.closing)
      ensures Valid() && state.id < |old(View()).objects|
      ensures View() == Update(old(View()), state.id,
        if forwards then StartForwarding(old(state.Value()), task) else DropUpstream(old(state.Value()), task))
    {
      forwards := !state.closing;
      assert View().objects[state.id] == state.Value();
      if forwards {
        state.writers := state.writers + {Upstream(task)};
      } else {
        state.writers := state.writers - {Upstream(task)};
      }
      OneRelayChanged(state);
    }

    method EndClient(state: RelayState, task: nat, accepted: bool)
      requires Valid() && Knows(state)
      modifies state
      ensures Valid() && state.id < |old(View()).objects|
      ensures View() == Update(old(View()), state.id, Release(old(state.Value()), task, accepted))
    {
      if accepted {
        state.activeConnections := state.activeConnections - 1;
      }
      state.tasks := state.tasks - {task};
      OneRelayChanged(state);
    }
  }
}
