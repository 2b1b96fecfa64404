/**
 The clients of a relay: who is admitted, who forwards, and what an undisturbed client leaves
 behind, told from the relay as the client found it.
 */
module RelayClients {
  import opened Options
  import opened RelayAccess
  import opened RelayRuns
  import opened TcpRelaySpec

  // ---------- Admission, over whole runs ----------

  /** Client `t` comes to relay `id` at step `k`. */
  ghost predicate CameAt(c: Config, steps: seq<Step>, k: nat, t: nat, id: nat, peerAllowed: bool) {
    && k < |steps| && steps[k] == AcceptClient(t, id, peerAllowed)
    && t !in Exec(c, steps[..k]).handlers && id < |Exec(c, steps[..k]).m.objects|
  }

  /** The relay has room for one more and is not closing. */
  predicate HasRoom(c: Config, s: System, id: nat) {
    id < |s.m.objects| && !s.m.objects[id].closing && s.m.objects[id].active < c.maxConnections
  }

  ghost predicate Serves(s: System, t: nat, id: nat, admitted: bool) {
    t in s.handlers && s.handlers[t].relay == id && s.handlers[t].admitted == admitted
  }

  lemma ComesOrStays(c: Config, s: System, step: Step, t: nat, id: nat, admitted: bool)
    requires Consistent(s.m) && Serves(Next(c, s, step), t, id, admitted)
    ensures Serves(s, t, id, admitted)
      || (step.AcceptClient? && step.t == t && step.id == id && t !in s.handlers && id < |s.m.objects| && admitted == (step.peerAllowed && HasRoom(c, s, id)))
  {
    if Enabled(c, s, step) && !MovesHandler(step) {
      OthersKeepHandlers(c, s, step);
    }
  }

  /** Every client came to its relay at some step of the run, and was admitted if and only if its address
      was allowed and the relay was then open and below its cap. */
  lemma {:induction false} AdmittedExactlyWhen(c: Config, steps: seq<Step>, t: nat, id: nat, admitted: bool)
    requires ConfigOk(c) && Serves(Exec(c, steps), t, id, admitted)
    ensures exists k: nat, peerAllowed ::
      CameAt(c, steps, k, t, id, peerAllowed) && (admitted <==> peerAllowed && HasRoom(c, Exec(c, steps[..k]), id))
  {
    var n := |steps| - 1;
    var before := Exec(c, steps[..n]);
    ConsistentThere(c, steps[..n]);
    ComesOrStays(c, before, steps[n], t, id, admitted);
    if Serves(before, t, id, admitted) {
      AdmittedExactlyWhen(c, steps[..n], t, id, admitted);
      var k: nat, peerAllowed :|
        CameAt(c, steps[..n], k, t, id, peerAllowed) && (admitted <==> peerAllowed && HasRoom(c, Exec(c, steps[..n][..k]), id));
      assert steps[..n][..k] == steps[..k];
      assert CameAt(c, steps, k, t, id, peerAllowed);
    } else {
      assert CameAt(c, steps, n, t, id, steps[n].peerAllowed);
    }
  }

  /** Step `k` is the connection to the firewall for client `t` of relay `id`, which is still open. */
  ghost predicate ConnectedAt(c: Config, steps: seq<Step>, k: nat, t: nat, id: nat) {
    && k < |steps| && steps[k] == UpstreamResult(t, true)
    && var s := Exec(c, steps[..k]);
    t in s.handlers && s.handlers[t].relay == id && s.handlers[t].pc == Connecting && id < |s.m.objects| && !s.m.objects[id].closing
  }

  lemma ConnectsOrStays(c: Config, s: System, step: Step, t: nat, id: nat)
    requires Consistent(s.m) && ForwardsOn(Next(c, s, step), t, id)
    ensures ForwardsOn(s, t, id)
      || (step == UpstreamResult(t, true) && HasHandler(s, t) && s.handlers[t].relay == id && s.handlers[t].pc == Connecting && !s.m.objects[id].closing)
  {
    if Enabled(c, s, step) && !MovesHandler(step) {
      OthersKeepHandlers(c, s, step);
    }
  }

  /** A client that forwards was connected at some step of the run, while its relay was open. */
  lemma {:induction false} ForwarderWasConnected(c: Config, steps: seq<Step>, t: nat, id: nat)
    requires ConfigOk(c) && ForwardsOn(Exec(c, steps), t, id)
    ensures exists k: nat :: ConnectedAt(c, steps, k, t, id)
  {
    var n := |steps| - 1;
    var before := Exec(c, steps[..n]);
    ConsistentThere(c, steps[..n]);
    ConnectsOrStays(c, before, steps[n], t, id);
    if ForwardsOn(before, t, id) {
      ForwarderWasConnected(c, steps[..n], t, id);
      var k: nat :| ConnectedAt(c, steps[..n], k, t, id);
      assert steps[..n][..k] == steps[..k];
      assert ConnectedAt(c, steps, k, t, id);
    } else {
      assert ConnectedAt(c, steps, n, t, id);
    }
  }

  // ---------- What a client comes to that nobody disturbs ----------

  /** Handler `t` and its relay are as given. */
  function With(s: System, t: nat, id: nat, h: Handler, r: Relay): System
    requires id < |s.m.objects|
  {
    s.(handlers := s.handlers[t := h], m := s.m.(objects := s.m.objects[id := r]))
  }

  lemma WithTwice(s: System, t: nat, id: nat, h: Handler, r: Relay, h': Handler, r': Relay)
    requires id < |s.m.objects|
    ensures With(With(s, t, id, h, r), t, id, h', r') == With(s, t, id, h', r')
  {
    assert s.handlers[t := h][t := h'] == s.handlers[t := h'];
    assert s.m.objects[id := r][id := r'] == s.m.objects[id := r'];
  }

  lemma AcceptNext(c: Config, s: System, t: nat, id: nat, peerAllowed: bool)
    requires Consistent(s.m) && t !in s.handlers && id < |s.m.objects|
    ensures var r := s.m.objects[id];
      Next(c, s, AcceptClient(t, id, peerAllowed)) ==
        if peerAllowed && HasRoom(c, s, id)
        then With(s, t, id, Handler(id, true, Connecting, false), r.(active := r.active + 1, writers := r.writers + {Downstream(t)}, tasks := r.tasks + {t}))
        else With(s, t, id, Handler(id, false, ClosingDownstream, false), r.(writers := r.writers - {Downstream(t)}, tasks := r.tasks + {t}))
  {
  }

  lemma UpstreamNext(c: Config, s: System, t: nat, id: nat, h: Handler, r: Relay)
    requires id < |s.m.objects| && Consistent(With(s, t, id, h, r).m) && h.relay == id && h.pc == Connecting && !r.closing
    ensures Next(c, With(s, t, id, h, r), UpstreamResult(t, true)) == With(s, t, id, h.(pc := Forwarding), r.(writers := r.writers + {Upstream(t)}))
  {
    WithTwice(s, t, id, h, r, h.(pc := Forwarding), r.(writers := r.writers + {Upstream(t)}));
  }

  lemma EndsNext(c: Config, s: System, t: nat, id: nat, h: Handler, r: Relay)
    requires id < |s.m.objects| && Consistent(With(s, t, id, h, r).m) && h.relay == id && h.pc == Forwarding && !h.cancelled
    ensures Next(c, With(s, t, id, h, r), ForwardingEnds(t)) == With(s, t, id, h.(pc := ClosingUpstream), r.(writers := r.writers - {Upstream(t)}))
  {
    WithTwice(s, t, id, h, r, h.(pc := ClosingUpstream), r.(writers := r.writers - {Upstream(t)}));
  }

  lemma UpstreamClosedNext(c: Config, s: System, t: nat, id: nat, h: Handler, r: Relay)
    requires id < |s.m.objects| && Consistent(With(s, t, id, h, r).m) && h.relay == id && h.pc == ClosingUpstream
    ensures Next(c, With(s, t, id, h, r), UpstreamClosed(t)) == With(s, t, id, h.(pc := ClosingDownstream), r.(writers := r.writers - {Downstream(t)}))
  {
    WithTwice(s, t, id, h, r, h.(pc := ClosingDownstream), r.(writers := r.writers - {Downstream(t)}));
  }

  lemma DownstreamClosedNext(c: Config, s: System, t: nat, id: nat, h: Handler, r: Relay)
    requires id < |s.m.objects| && Consistent(With(s, t, id, h, r).m) && h.relay == id && h.pc == ClosingDownstream
    ensures Next(c, With(s, t, id, h, r), DownstreamClosed(t)) ==
      With(s, t, id, h.(pc := Gone), r.(active := if h.admitted then r.active - 1 else r.active, tasks := r.tasks - {t}))
  {
    WithTwice(s, t, id, h, r, h.(pc := Gone), r.(active := if h.admitted then r.active - 1 else r.active, tasks := r.tasks - {t}));
  }

  /** Handlers do not touch what the dictionary says. */
  lemma StaysConsistent(s: System, t: nat, id: nat, h: Handler, r: Relay)
    requires id < |s.m.objects| && Consistent(s.m) && r.allocation == s.m.objects[id].allocation && r.closing == s.m.objects[id].closing
    ensures Consistent(With(s, t, id, h, r).m)
  {
    var w := With(s, t, id, h, r);
    assert forall i: nat :: Live(w.m, i) <==> Live(s.m, i);
  }

  lemma ConnectsFrom(c: Config, steps: seq<Step>, s: System, t: nat, id: nat, h: Handler, r: Relay)
    requires Consistent(s.m) && id < |s.m.objects| && r.allocation == s.m.objects[id].allocation && r.closing == s.m.objects[id].closing
    requires Exec(c, steps) == With(s, t, id, h, r) && h.relay == id && h.pc == Connecting && !r.closing
    ensures Exec(c, steps + [UpstreamResult(t, true)]) == With(s, t, id, h.(pc := Forwarding), r.(writers := r.writers + {Upstream(t)}))
  {
    Extend(c, steps, UpstreamResult(t, true));
    StaysConsistent(s, t, id, h, r);
    UpstreamNext(c, s, t, id, h, r);
  }

  /** The relay with one more client, admitted but not yet connected, and forwarding. */
  function Entered(r: Relay, t: nat): Relay {
    r.(active := r.active + 1, writers := r.writers + {Downstream(t)}, tasks := r.tasks + {t})
  }

  function Joined(r: Relay, t: nat): Relay {
    r.(active := r.active + 1, writers := r.writers + {Downstream(t), Upstream(t)}, tasks := r.tasks + {t})
  }

  lemma EnteredIsJoined(r: Relay, t: nat)
    ensures Entered(r, t).(writers := Entered(r, t).writers + {Upstream(t)}) == Joined(r, t)
  {
    assert r.writers + {Downstream(t)} + {Upstream(t)} == r.writers + {Downstream(t), Upstream(t)};
  }

  lemma AcceptedFrom(c: Config, steps: seq<Step>, s: System, t: nat, id: nat)
    requires Consistent(s.m) && Exec(c, steps) == s && t !in s.handlers && HasRoom(c, s, id)
    ensures Exec(c, steps + [AcceptClient(t, id, true)]) == With(s, t, id, Handler(id, true, Connecting, false), Entered(s.m.objects[id], t))
  {
    Extend(c, steps, AcceptClient(t, id, true));
    AcceptNext(c, s, t, id, true);
  }

  lemma AdmittedAlone(c: Config, steps: seq<Step>, s: System, t: nat, id: nat)
    requires Consistent(s.m) && Exec(c, steps) == s && t !in s.handlers && HasRoom(c, s, id)
    ensures Exec(c, steps + [AcceptClient(t, id, true)] + [UpstreamResult(t, true)]) ==
      With(s, t, id, Handler(id, true, Forwarding, false), Joined(s.m.objects[id], t))
  {
    AcceptedFrom(c, steps, s, t, id);
    ConnectsFrom(c, steps + [AcceptClient(t, id, true)], s, t, id, Handler(id, true, Connecting, false), Entered(s.m.objects[id], t));
    EnteredIsJoined(s.m.objects[id], t);
  }

  lemma TurnedAwayAlone(c: Config, steps: seq<Step>, s: System, t: nat, id: nat, peerAllowed: bool)
    requires Consistent(s.m) && Exec(c, steps) == s && t !in s.handlers && id < |s.m.objects| && !(peerAllowed && HasRoom(c, s, id))
    ensures Exec(c, steps + [AcceptClient(t, id, peerAllowed)] + [UpstreamResult(t, true)]) ==
      With(s, t, id, Handler(id, false, ClosingDownstream, false), Refused(s.m.objects[id], t))
  {
    Extend(c, steps, AcceptClient(t, id, peerAllowed));
    AcceptNext(c, s, t, id, peerAllowed);
    Extend(c, steps + [AcceptClient(t, id, peerAllowed)], UpstreamResult(t, true));
  }

  /** The relay with a client that was not admitted. */
  function Refused(r: Relay, t: nat): Relay {
    r.(writers := r.writers - {Downstream(t)}, tasks := r.tasks + {t})
  }

  /** After every run: a new client whose connections all succeed forwards if and only if its address is
      allowed and its relay is open and below the cap; it then counts, and stands among the tasks
      with both its writers. Otherwise it does not count. */
  lemma AnUndisturbedClientForwards(c: Config, steps: seq<Step>, s: System, t: nat, id: nat, peerAllowed: bool)
    requires ConfigOk(c) && Exec(c, steps) == s && t !in s.handlers && id < |s.m.objects|
    ensures Exec(c, steps + [AcceptClient(t, id, peerAllowed)] + [UpstreamResult(t, true)]) ==
      if peerAllowed && !s.m.objects[id].closing && s.m.objects[id].active < c.maxConnections
      then With(s, t, id, Handler(id, true, Forwarding, false), Joined(s.m.objects[id], t))
      else With(s, t, id, Handler(id, false, ClosingDownstream, false), Refused(s.m.objects[id], t))
  {
    ConsistentThere(c, steps);
    if peerAllowed && HasRoom(c, s, id) {
      AdmittedAlone(c, steps, s, t, id);
    } else {
      TurnedAwayAlone(c, steps, s, t, id, peerAllowed);
    }
  }

  lemma JoinedAndLeft(r: Relay, t: nat)
    requires t !in r.tasks
    ensures var j := Joined(r, t);
      j.(writers := j.writers - {Upstream(t)} - {Downstream(t)}).(active := j.active - 1, tasks := j.tasks - {t})
      == r.(writers := r.writers - {Downstream(t), Upstream(t)})
  {
    assert r.writers + {Downstream(t), Upstream(t)} - {Upstream(t)} - {Downstream(t)} == r.writers - {Downstream(t), Upstream(t)};
    assert r.tasks + {t} - {t} == r.tasks;
  }

  // ---------- Cancelled clients, and clients that connect too late ----------

  lemma LandsNow(c: Config, s: System, t: nat)
    requires Consistent(s.m) && HasHandler(s, t) && s.handlers[t].cancelled && s.handlers[t].pc != Gone
    ensures var h, id := s.handlers[t], s.handlers[t].relay; var r := s.m.objects[id];
      Next(c, s, CancelLands(t)) ==
        if h.pc == Connecting then With(s, t, id, h.(pc := ClosingDownstream), r.(writers := r.writers - {Downstream(t)}))
        else if h.pc == Forwarding then With(s, t, id, h.(pc := ClosingUpstream), r.(writers := r.writers - {Upstream(t)}))
        else With(s, t, id, h.(pc := Gone), r)
  {
  }

  lemma UnwantedNow(c: Config, s: System, t: nat, connected: bool)
    requires Consistent(s.m) && HasHandler(s, t) && s.handlers[t].pc == Connecting && (connected ==> s.m.objects[s.handlers[t].relay].closing)
    ensures var h, id := s.handlers[t], s.handlers[t].relay; var r := s.m.objects[id];
      Next(c, s, UpstreamResult(t, connected)) ==
        if connected then With(s, t, id, h.(pc := ClosingUpstream), r.(writers := r.writers - {Upstream(t)}))
        else With(s, t, id, h.(pc := ClosingDownstream), r.(writers := r.writers - {Downstream(t)}))
  {
  }

  /** The relay without the client: its count, its task and its writers are gone. */
  function Without(r: Relay, t: nat): Relay {
    r.(active := r.active - 1, writers := r.writers - {Upstream(t), Downstream(t)}, tasks := r.tasks - {t})
  }

  /** From the end of its forwarding a handler takes back its count, its task and its writers. */
  lemma WindsUp(c: Config, s: System, t: nat, id: nat, h: Handler, r: Relay)
    requires Consistent(s.m) && id < |s.m.objects| && r.allocation == s.m.objects[id].allocation && r.closing == s.m.objects[id].closing
    requires h.relay == id && h.pc == ClosingUpstream && h.admitted
    ensures Next(c, Next(c, With(s, t, id, h, r), UpstreamClosed(t)), DownstreamClosed(t)) ==
      With(s, t, id, h.(pc := Gone), r.(active := r.active - 1, writers := r.writers - {Downstream(t)}, tasks := r.tasks - {t}))
  {
    var r' := r.(writers := r.writers - {Downstream(t)});
    StaysConsistent(s, t, id, h, r);
    UpstreamClosedNext(c, s, t, id, h, r);
    StaysConsistent(s, t, id, h.(pc := ClosingDownstream), r');
    DownstreamClosedNext(c, s, t, id, h.(pc := ClosingDownstream), r');
  }

  /** From the end of its connecting too. */
  lemma WindsUpAtOnce(c: Config, s: System, t: nat, id: nat, h: Handler, r: Relay)
    requires Consistent(s.m) && id < |s.m.objects| && r.allocation == s.m.objects[id].allocation && r.closing == s.m.objects[id].closing
    requires h.relay == id && h.pc == ClosingDownstream && h.admitted
    ensures Next(c, With(s, t, id, h, r), DownstreamClosed(t)) == With(s, t, id, h.(pc := Gone), r.(active := r.active - 1, tasks := r.tasks - {t}))
  {
    StaysConsistent(s, t, id, h, r);
    DownstreamClosedNext(c, s, t, id, h, r);
  }

  /** When its forwarding ends, such a client leaves the counter and the tasks as they were before it
      came, and takes both its writers with it. */
  lemma AnEndedClientLeavesNoTrace(c: Config, s: System, t: nat, id: nat)
    requires Consistent(s.m) && id < |s.m.objects| && t !in s.m.objects[id].tasks
    ensures var r := s.m.objects[id]; var forwarding := With(s, t, id, Handler(id, true, Forwarding, false), Joined(r, t));
      Next(c, Next(c, Next(c, forwarding, ForwardingEnds(t)), UpstreamClosed(t)), DownstreamClosed(t)) ==
      With(s, t, id, Handler(id, true, Gone, false), r.(writers := r.writers - {Downstream(t), Upstream(t)}))
  {
    EndsAndWindsUp(c, s, t, id, Handler(id, true, Forwarding, false), Joined(s.m.objects[id], t));
    JoinedAndLeft(s.m.objects[id], t);
  }

  lemma EndsAndWindsUp(c: Config, s: System, t: nat, id: nat, h: Handler, r: Relay)
    requires Consistent(s.m) && id < |s.m.objects| && r.allocation == s.m.objects[id].allocation && r.closing == s.m.objects[id].closing
    requires h.relay == id && h.pc == Forwarding && h.admitted && !h.cancelled
    ensures Next(c, Next(c, Next(c, With(s, t, id, h, r), ForwardingEnds(t)), UpstreamClosed(t)), DownstreamClosed(t)) ==
      With(s, t, id, h.(pc := Gone), r.(writers := r.writers - {Upstream(t)} - {Downstream(t)}).(active := r.active - 1, tasks := r.tasks - {t}))
  {
    StaysConsistent(s, t, id, h, r);
    EndsNext(c, s, t, id, h, r);
    WindsUp(c, s, t, id, h.(pc := ClosingUpstream), r.(writers := r.writers - {Upstream(t)}));
  }

  lemma TwoWriters(r: Relay, t: nat)
    ensures r.writers - {Upstream(t)} - {Downstream(t)} == r.writers - {Upstream(t), Downstream(t)}
  {
  }

  /** Delivering its cancellation ends handler `t`: where it forwards or connects, it stops and takes back its
      count, its task and its writers; inside `finally` it is gone at once and its count stays. */
  ghost predicate CancellationEnds(c: Config, s: System, t: nat)
    requires HasHandler(s, t)
  {
    var h, id := s.handlers[t], s.handlers[t].relay;
    var r, landed := s.m.objects[id], Next(c, s, CancelLands(t));
    match h.pc
    case Forwarding => Next(c, Next(c, landed, UpstreamClosed(t)), DownstreamClosed(t)) == With(s, t, id, h.(pc := Gone), Without(r, t))
    case Connecting =>
      Next(c, landed, DownstreamClosed(t)) ==
      With(s, t, id, h.(pc := Gone), r.(active := r.active - 1, writers := r.writers - {Downstream(t)}, tasks := r.tasks - {t}))
    case Gone => true
    case _ => landed == With(s, t, id, h.(pc := Gone), r)
  }

  lemma ForwardingEnds3(c: Config, s: System, t: nat, h: Handler, id: nat, r: Relay)
    requires Consistent(s.m) && HasHandler(s, t) && h == s.handlers[t] && id == h.relay && r == s.m.objects[id]
    requires h.cancelled && h.pc == Forwarding && h.admitted
    ensures Next(c, Next(c, Next(c, s, CancelLands(t)), UpstreamClosed(t)), DownstreamClosed(t)) == With(s, t, id, h.(pc := Gone), Without(r, t))
  {
    LandsNow(c, s, t);
    WindsUp(c, s, t, id, h.(pc := ClosingUpstream), r.(writers := r.writers - {Upstream(t)}));
    TwoWriters(r, t);
  }

  lemma ConnectingEnds2(c: Config, s: System, t: nat, h: Handler, id: nat, r: Relay)
    requires Consistent(s.m) && HasHandler(s, t) && h == s.handlers[t] && id == h.relay && r == s.m.objects[id]
    requires h.cancelled && h.pc == Connecting && h.admitted
    ensures Next(c, Next(c, s, CancelLands(t)), DownstreamClosed(t)) ==
      With(s, t, id, h.(pc := Gone), r.(active := r.active - 1, writers := r.writers - {Downstream(t)}, tasks := r.tasks - {t}))
  {
    LandsNow(c, s, t);
    WindsUpAtOnce(c, s, t, id, h.(pc := ClosingDownstream), r.(writers := r.writers - {Downstream(t)}));
  }

  /** A handler that waits for its firewall, or forwards, has been admitted. */
  ghost predicate IsAdmitted(s: System, t: nat) {
    HasHandler(s, t) && (s.handlers[t].pc == Connecting || s.handlers[t].pc == Forwarding ==> s.handlers[t].admitted)
  }

  lemma AdmittedThere(c: Config, steps: seq<Step>, t: nat)
    requires ConfigOk(c) && HasHandler(Exec(c, steps), t)
    ensures Consistent(Exec(c, steps).m) && IsAdmitted(Exec(c, steps), t)
  {
    RunKeeps(c, steps);
    assert HandlerOk(Exec(c, steps), t);
  }

  lemma CancellationEndsIt(c: Config, s: System, t: nat)
    requires Consistent(s.m) && IsAdmitted(s, t) && s.handlers[t].cancelled
    ensures CancellationEnds(c, s, t)
  {
    var h, id := s.handlers[t], s.handlers[t].relay;
    match h.pc
    case Forwarding => ForwardingEnds3(c, s, t, h, id, s.m.objects[id]);
    case Connecting => ConnectingEnds2(c, s, t, h, id, s.m.objects[id]);
    case Gone =>
    case _ => LandsNow(c, s, t);
  }

  /** After every run. */
  lemma CancelledHandlersEnd(c: Config, steps: seq<Step>, t: nat)
    requires ConfigOk(c)
    ensures HasHandler(Exec(c, steps), t) && Exec(c, steps).handlers[t].cancelled ==> CancellationEnds(c, Exec(c, steps), t)
  {
    if HasHandler(Exec(c, steps), t) && Exec(c, steps).handlers[t].cancelled {
      AdmittedThere(c, steps, t);
      CancellationEndsIt(c, Exec(c, steps), t);
    }
  }

  /** A connection that fails, or comes up after the relay was closed, ends its handler, which forwards
      nothing and takes back its count, its task and its writers. */
  ghost predicate UnwantedEnds(c: Config, s: System, t: nat, connected: bool)
    requires HasHandler(s, t)
  {
    var h, id := s.handlers[t], s.handlers[t].relay;
    var r, after := s.m.objects[id], Next(c, s, UpstreamResult(t, connected));
    if connected then Next(c, Next(c, after, UpstreamClosed(t)), DownstreamClosed(t)) == With(s, t, id, h.(pc := Gone), Without(r, t))
    else
      Next(c, after, DownstreamClosed(t)) ==
      With(s, t, id, h.(pc := Gone), r.(active := r.active - 1, writers := r.writers - {Downstream(t)}, tasks := r.tasks - {t}))
  }

  lemma LateEnds(c: Config, s: System, t: nat, h: Handler, id: nat, r: Relay)
    requires Consistent(s.m) && HasHandler(s, t) && h == s.handlers[t] && id == h.relay && r == s.m.objects[id]
    requires h.pc == Connecting && h.admitted && r.closing
    ensures UnwantedEnds(c, s, t, true)
  {
    UnwantedNow(c, s, t, true);
    WindsUp(c, s, t, id, h.(pc := ClosingUpstream), r.(writers := r.writers - {Upstream(t)}));
    TwoWriters(r, t);
  }

  lemma FailedEnds(c: Config, s: System, t: nat, h: Handler, id: nat, r: Relay)
    requires Consistent(s.m) && HasHandler(s, t) && h == s.handlers[t] && id == h.relay && r == s.m.objects[id]
    requires h.pc == Connecting && h.admitted
    ensures UnwantedEnds(c, s, t, false)
  {
    UnwantedNow(c, s, t, false);
    WindsUpAtOnce(c, s, t, id, h.(pc := ClosingDownstream), r.(writers := r.writers - {Downstream(t)}));
  }

  ghost predicate IsUnwanted(s: System, t: nat, connected: bool) {
    HasHandler(s, t) && s.handlers[t].pc == Connecting && (connected ==> s.m.objects[s.handlers[t].relay].closing)
  }

  /** After every run. */
  lemma UnwantedConnectionsEnd(c: Config, steps: seq<Step>, t: nat, connected: bool)
    requires ConfigOk(c)
    ensures IsUnwanted(Exec(c, steps), t, connected) ==> UnwantedEnds(c, Exec(c, steps), t, connected)
  {
    var s := Exec(c, steps);
    if IsUnwanted(s, t, connected) {
      var h, id := s.handlers[t], s.handlers[t].relay;
      AdmittedThere(c, steps, t);
      if connected {
        LateEnds(c, s, t, h, id, s.m.objects[id]);
      } else {
        FailedEnds(c, s, t, h, id, s.m.objects[id]);
      }
    }
  }
}
