/**
 The module-level tables of `proxy.py` that count and track connector tunnels, as values and as
 the object whose methods change them under the connector lock. A tunnel's number stands both
 for its WebSocket and for the coroutine that serves it.
 */
module ConnectorRegistrySpec {

  datatype Registry = Registry(
    counts: map<nat, int>,           // by connector session
    websockets: map<nat, set<nat>>,  // by device
    tasks: map<nat, set<nat>>)       // by device

  const EMPTY := Registry(map[], map[], map[])

  function Count(r: Registry, session: nat): int {
    if session in r.counts then r.counts[session] else 0
  }

  function Members(m: map<nat, set<nat>>, device: nat): set<nat> {
    if device in m then m[device] else {}
  }

  function Discard(m: map<nat, set<nat>>, device: nat, t: nat): map<nat, set<nat>> {
    if device !in m then m
    else if m[device] - {t} == {} then m - {device}
    else m[device := m[device] - {t}]
  }

  function Reserve(r: Registry, session: nat, cap: int): (bool, Registry) {
    if Count(r, session) >= cap then (false, r)
    else (true, r.(counts := r.counts[session := Count(r, session) + 1]))
  }

  function Track(r: Registry, device: nat, t: nat): Registry {
    r.(websockets := r.websockets[device := Members(r.websockets, device) + {t}],
       tasks := r.tasks[device := Members(r.tasks, device) + {t}])
  }

  function Release(r: Registry, session: nat, device: nat, t: nat): Registry {
    Registry(
      if Count(r, session) <= 1 then r.counts - {session} else r.counts[session := Count(r, session) - 1],
      Discard(r.websockets, device, t),
      Discard(r.tasks, device, t))
  }

  function Pop(r: Registry, device: nat): Registry {
    r.(websockets := r.websockets - {device}, tasks := r.tasks - {device})
  }

  function PopAll(r: Registry): Registry {
    r.(websockets := map[], tasks := map[])
  }

  lemma MembersAfter(r: Registry, session: nat, device: nat, t: nat, other: nat)
    ensures Members(Track(r, device, t).tasks, other) == Members(r.tasks, other) + if other == device then {t} else {}
    ensures Members(Release(r, session, device, t).tasks, other) == Members(r.tasks, other) - if other == device then {t} else {}
    ensures Members(Pop(r, device).tasks, other) == if other == device then {} else Members(r.tasks, other)
  {
  }
}

module ConnectorRegistry {
  import opened Spec = ConnectorRegistrySpec

  class ConnectorTables {
    const maxConnections: int
    var counts: map<nat, int>
    var websockets: map<nat, set<nat>>
    var tasks: map<nat, set<nat>>

    constructor (maxConnections: int)
      ensures View() == EMPTY && this.maxConnections == maxConnections
    {
      this.maxConnections := maxConnections;
      counts, websockets, tasks := map[], map[], map[];
    }

    function View(): Registry
      reads this
    {
      Registry(counts, websockets, tasks)
    }

    method Reserve(session: nat) returns (ok: bool)
      modifies this
      ensures (ok, View()) == Spec.Reserve(old(View()), session, maxConnections)
    {
      var current := if session in counts then counts[session] else 0;
      if current >= maxConnections {
        return false;
      }
      counts := counts[session := current + 1];
      return true;
    }

    method Track(device: nat, t: nat)
      modifies this
      ensures View() == Spec.Track(old(View()), device, t)
    {
      if device !in websockets {
        websockets := websockets[device := {}];
      }
      websockets := websockets[device := websockets[device] + {t}];
      if device !in tasks {
        tasks := tasks[device := {}];
      }
      tasks := tasks[device := tasks[device] + {t}];
      assert websockets == Spec.Track(old(View()), device, t).websockets;
      assert tasks == Spec.Track(old(View()), device, t).tasks;
    }

    method Release(session: nat, device: nat, t: nat)
      modifies this
      ensures View() == Spec.Release(old(View()), session, device, t)
    {
      var current := if session in counts then counts[session] else 0;
      if current <= 1 {
        counts := counts - {session};
      } else {
        counts := counts[session := current - 1];
      }
      websockets := DiscardFrom(websockets, device, t);
      tasks := DiscardFrom(tasks, device, t);
    }

    /** Drop one member, and the device's entry with the last one. */
    static method DiscardFrom(members: map<nat, set<nat>>, device: nat, t: nat) returns (rest: map<nat, set<nat>>)
      ensures rest == Discard(members, device, t)
    {
      rest := members;
      if device in rest {
        rest := rest[device := rest[device] - {t}];
        if rest[device] == {} {
          rest := rest - {device};
        }
      }
      assert rest == Discard(members, device, t);
    }

    /** The locked part of `close_device_access`: what the caller goes on to cancel. */
    method PopDevice(device: nat) returns (sockets: set<nat>, toCancel: set<nat>)
      modifies this
      ensures View() == Pop(old(View()), device)
      ensures sockets == Members(old(websockets), device) && toCancel == Members(old(tasks), device)
    {
      sockets := if device in websockets then websockets[device] else {};
      toCancel := if device in tasks then tasks[device] else {};
      websockets := websockets - {device};
      tasks := tasks - {device};
    }
  }
}
