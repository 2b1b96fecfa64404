/**
 The kernel's WireGuard peer table and what the Hub's commands do to it. A route belongs to one
 peer: giving it to a peer takes it from every other one.
 */
module PeerTable {
  import opened Options
  import opened TunnelAddresses

  datatype Route = Route(address: int, prefix: nat)

  type Table = map<string, set<Route>>

  datatype Peer = Peer(key: string, ip: int)

  /** A device row: its key, and its stored tunnel address. */
  datatype Device = Device(key: string, ip: Address)

  predicate IsBase64(c: char) {
    'A' <= c <= 'Z' || 'a' <= c <= 'z' || '0' <= c <= '9' || c == '+' || c == '/'
  }

  /** `WG_KEY_RE.match`; its `$` also matches before a final newline. */
  predicate ValidKey(key: string) {
    && (|key| == 44 || (|key| == 45 && key[44] == '\n'))
    && key[43] == '='
    && forall i :: 0 <= i < 43 ==> IsBase64(key[i])
  }

  /** 43 characters of the Base64 alphabet and the padding; the `$` lets one newline through. */
  lemma KeysAreBase64(key: string)
    ensures ValidKey(key) <==> exists body: string ::
      && |body| == 43 && (key == body + "=" || key == body + "=" + "\n")
      && forall i :: 0 <= i < 43 ==> 'A' <= body[i] <= 'Z' || 'a' <= body[i] <= 'z' || '0' <= body[i] <= '9' || body[i] == '+' || body[i] == '/'
  {
    if ValidKey(key) {
      var body := key[..43];
      assert key == body + "=" || key == body + "=" + "\n";
    }
    if body: string :|
      && |body| == 43 && (key == body + "=" || key == body + "=" + "\n")
      && forall i :: 0 <= i < 43 ==> 'A' <= body[i] <= 'Z' || 'a' <= body[i] <= 'z' || '0' <= body[i] <= '9' || body[i] == '+' || body[i] == '/'
    {
      assert key[..43] == body;
      assert forall i :: 0 <= i < 43 ==> key[i] == body[i];
    }
  }

  /** The checks of `add_peer`. */
  function Check(net: HubNetwork, d: Device): Option<Peer> {
    if ValidKey(d.key) && d.ip.V4? && Inside(net, d.ip.value) && d.ip.value != net.hub then Some(Peer(d.key, d.ip.value)) else None
  }

  function Own(ip: int): Route {
    Route(ip, 32)
  }

  /** `wg set <interface> peer <key> allowed-ips <ip>/32` */
  function SetPeer(t: Table, p: Peer): Table {
    map key | key in t.Keys + {p.key} :: if key == p.key then {Own(p.ip)} else t[key] - {Own(p.ip)}
  }

  function SetAll(t: Table, peers: seq<Peer>): Table {
    if peers == [] then t else SetPeer(SetAll(t, peers[..|peers|-1]), peers[|peers|-1])
  }

  lemma SetAllNext(t: Table, peers: seq<Peer>, i: nat)
    requires i < |peers|
    ensures SetAll(t, peers[..i+1]) == SetPeer(SetAll(t, peers[..i]), peers[i])
  {
    assert peers[..i+1][..i] == peers[..i];
  }

  function KeysOf(peers: seq<Peer>): set<string> {
    set i | 0 <= i < |peers| :: peers[i].key
  }

  function KeepOnly(t: Table, keys: set<string>): Table {
    map key | key in t && key in keys :: t[key]
  }

  /** `reconcile_wireguard_after_restore`: the bootstrap sets every peer, then the unexpected
      ones go, then every peer is set again. */
  function Reconciled(t: Table, boot: seq<Peer>, expected: seq<Peer>): Table {
    SetAll(KeepOnly(SetAll(t, boot), KeysOf(expected)), expected)
  }

  // ---------- Main results ----------

  /** No route stands under two peers. */
  ghost predicate Exclusive(t: Table) {
    forall a, b, r :: a in t && b in t && r in t[a] && r in t[b] ==> a == b
  }

  lemma SetPeerKeepsExclusive(t: Table, p: Peer)
    requires Exclusive(t)
    ensures Exclusive(SetPeer(t, p))
  {
  }

  ghost predicate DistinctKeys(peers: seq<Peer>) {
    forall i, j :: 0 <= i < j < |peers| ==> peers[i].key != peers[j].key
  }

  ghost predicate DistinctIps(peers: seq<Peer>) {
    forall i, j :: 0 <= i < j < |peers| ==> peers[i].ip != peers[j].ip
  }

  /** Exactly the expected peers, each with its own /32 and nothing else. */
  ghost predicate IsExactly(t: Table, peers: seq<Peer>) {
    t.Keys == KeysOf(peers) && forall i :: 0 <= i < |peers| ==> peers[i].key in t && t[peers[i].key] == {Own(peers[i].ip)}
  }

  lemma {:induction false} SetAllKeys(t: Table, peers: seq<Peer>)
    ensures SetAll(t, peers).Keys == t.Keys + KeysOf(peers)
  {
    if peers != [] {
      var front := peers[..|peers|-1];
      SetAllKeys(t, front);
      assert forall k :: k in KeysOf(peers) <==> k in KeysOf(front) || k == peers[|peers|-1].key by {
        assert forall i :: 0 <= i < |front| ==> front[i] == peers[i];
      }
    }
  }

  /** A peer keeps the route it was given until the route is given to another. */
  lemma {:induction false} KeepsItsRoute(t: Table, peers: seq<Peer>, i: nat)
    requires i < |peers| && DistinctKeys(peers)
    ensures peers[i].key in SetAll(t, peers)
    ensures SetAll(t, peers)[peers[i].key] == {Own(peers[i].ip)} - TakenAfter(peers, i)
  {
    var front := peers[..|peers|-1];
    if i < |front| {
      KeepsItsRoute(t, front, i);
      assert TakenAfter(peers, i) == TakenAfter(front, i) + {Own(peers[|peers|-1].ip)};
    } else {
      assert TakenAfter(peers, i) == {};
    }
  }

  function TakenAfter(peers: seq<Peer>, i: nat): set<Route> {
    set k | i < k < |peers| :: Own(peers[k].ip)
  }

  /** From any runtime table, whatever the bootstrap set before and in whatever order the devices
      come, reconciling ends with exactly one peer per device, carrying exactly that device's /32,
      if and only if no two devices share an address. */
  lemma ReconcileIsExact(t: Table, boot: seq<Peer>, expected: seq<Peer>)
    requires DistinctKeys(expected)
    ensures IsExactly(Reconciled(t, boot, expected), expected) <==> DistinctIps(expected)
  {
    var kept := KeepOnly(SetAll(t, boot), KeysOf(expected));
    SetAllKeys(kept, expected);
    forall i | 0 <= i < |expected|
      ensures expected[i].key in Reconciled(t, boot, expected)
      ensures Reconciled(t, boot, expected)[expected[i].key] == {Own(expected[i].ip)} <==> forall k :: i < k < |expected| ==> expected[k].ip != expected[i].ip
    {
      KeepsItsRoute(kept, expected, i);
      if k :| i < k < |expected| && expected[k].ip == expected[i].ip {
        assert Own(expected[k].ip) in TakenAfter(expected, i);
        assert Own(expected[i].ip) !in {Own(expected[i].ip)} - TakenAfter(expected, i);
      }
    }
  }

  /** The order in which the devices come does not matter. */
  lemma OrderDoesNotMatter(t: Table, boot: seq<Peer>, expected: seq<Peer>, other: seq<Peer>)
    requires DistinctKeys(expected) && DistinctIps(expected) && DistinctKeys(other) && DistinctIps(other)
    requires forall p :: p in expected <==> p in other
    ensures Reconciled(t, boot, expected) == Reconciled(t, boot, other)
  {
    ReconcileIsExact(t, boot, expected);
    ReconcileIsExact(t, boot, other);
    var a, b := Reconciled(t, boot, expected), Reconciled(t, boot, other);
    forall key ensures key in a ==> key in b && a[key] == b[key] {
      if key in a {
        var i :| 0 <= i < |expected| && expected[i].key == key;
        assert expected[i] in other;
      }
    }
    forall key ensures key in b ==> key in a {
      if key in b {
        var i :| 0 <= i < |other| && other[i].key == key;
        assert other[i] in expected;
      }
    }
  }
}
