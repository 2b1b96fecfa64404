/** `add_peer`, `remove_peer`, the sync loop and the reconcile loops, on a live peer table. */
module WireguardPeers {
  import opened Options
  import opened TunnelAddresses
  import opened PeerTable

  /** The devices as peers, up to the first that does not pass. */
  function Peers(net: HubNetwork, devices: seq<Device>): (peers: seq<Peer>)
    ensures |peers| <= |devices| && forall i :: 0 <= i < |peers| ==> Check(net, devices[i]) == Some(peers[i])
    ensures |peers| < |devices| ==> Check(net, devices[|peers|]).None?
  {
    if devices == [] then []
    else
      match Check(net, devices[0])
      case None => []
      case Some(p) => [p] + Peers(net, devices[1..])
  }

  predicate AllPass(net: HubNetwork, devices: seq<Device>) {
    |Peers(net, devices)| == |devices|
  }

  function DeviceKeys(devices: seq<Device>): set<string> {
    set i | 0 <= i < |devices| :: devices[i].key
  }

  lemma KeysMatch(net: HubNetwork, devices: seq<Device>)
    requires AllPass(net, devices)
    ensures DeviceKeys(devices) == KeysOf(Peers(net, devices))
  {
    var ps := Peers(net, devices);
    assert forall i :: 0 <= i < |ps| ==> ps[i].key == devices[i].key;
  }

  class WireguardInterface {
    const net: HubNetwork
    var peers: Table

    constructor (net: HubNetwork)
      ensures this.net == net && Valid() && peers == map[]
    {
      this.net := net;
      peers := map[];
    }

    /** The kernel knows peers by well-formed keys only. */
    ghost predicate Valid()
      reads this
    {
      forall key :: key in peers ==> ValidKey(key)
    }

    method AddPeer(d: Device) returns (ok: bool)
      requires Valid()
      modifies this
      ensures Valid() && ok == Check(net, d).Some?
      ensures peers == if ok then SetPeer(old(peers), Check(net, d).value) else old(peers)
      ensures ok <==> ValidKey(d.key) && d.ip.V4? && net.base <= d.ip.value < net.base + net.size && d.ip.value != net.hub
      ensures ok ==>
        && peers.Keys == old(peers).Keys + {d.key} && peers[d.key] == {Route(d.ip.value, 32)}
        && forall key :: key in old(peers) && key != d.key ==> peers[key] == old(peers)[key] - {Route(d.ip.value, 32)}
    {
      if !ValidKey(d.key) || !d.ip.V4? || !Inside(net, d.ip.value) || d.ip.value == net.hub {
        return false;
      }
      var route := Own(d.ip.value);
      peers := map key | key in peers.Keys + {d.key} :: if key == d.key then {route} else peers[key] - {route};
      return true;
    }

    method RemovePeer(key: string) returns (ok: bool)
      requires Valid()
      modifies this
      ensures Valid() && ok == ValidKey(key)
      ensures peers == if ok then old(peers) - {key} else old(peers)
    {
      if !ValidKey(key) {
        return false;
      }
      peers := peers - {key};
      return true;
    }

    /** `wg show <interface> dump`, in no particular order. */
    method RuntimeKeys() returns (keys: seq<string>)
      ensures forall key :: key in keys <==> key in peers
    {
      keys := [];
      var rest := peers.Keys;
      while rest != {}
        invariant rest <= peers.Keys && forall key :: key in keys <==> key in peers && key !in rest
        decreases rest
      {
        var key: string :| key in rest;
        keys := keys + [key];
        rest := rest - {key};
      }
    }

    /** `_sync_peer_payloads_local`: stops at the first device that is refused. */
    method SyncPeers(devices: seq<Device>) returns (ok: bool)
      requires Valid()
      modifies this
      ensures Valid() && ok == AllPass(net, devices)
      ensures peers == SetAll(old(peers), Peers(net, devices))
    {
      ghost var ps := Peers(net, devices);
      for i := 0 to |devices|
        invariant Valid() && i <= |ps| && peers == SetAll(old(peers), ps[..i])
      {
        var added := AddPeer(devices[i]);
        if !added {
          assert ps[..i] == ps;
          return false;
        }
        SetAllNext(old(peers), ps, i);
      }
      assert ps[..|devices|] == ps;
      return true;
    }

    method RemoveUnexpected(expected: set<string>)
      requires Valid()
      modifies this
      ensures Valid() && peers == KeepOnly(old(peers), expected)
    {
      var runtime := RuntimeKeys();
      ghost var was := peers;
      for i := 0 to |runtime|
        invariant Valid()
        invariant peers == map key | key in was && (key in expected || key !in runtime[..i]) :: was[key]
      {
        assert runtime[i] in runtime;
        assert forall key :: key in runtime[..i+1] <==> key in runtime[..i] || key == runtime[i];
        if runtime[i] !in expected {
          var _ := RemovePeer(runtime[i]);
        }
      }
      assert runtime[..|runtime|] == runtime;
    }

    method Reconcile(devices: seq<Device>) returns (ok: bool)
      requires Valid()
      modifies this
      ensures Valid() && ok == AllPass(net, devices)
      ensures ok ==> peers == Reconciled(old(peers), Peers(net, devices), Peers(net, devices))
      ensures !ok ==> peers == SetAll(old(peers), Peers(net, devices))
    {
      ok := SyncPeers(devices);
      if !ok {
        return;
      }
      var expected := DeviceKeys(devices);
      KeysMatch(net, devices);
      RemoveUnexpected(expected);
      ok := SyncPeers(devices);
    }
  }
}
