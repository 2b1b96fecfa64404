/**
 The isolation policy of `hardening.py`: one set of settings, compiled to an nftables table and
 to iptables/ip6tables chains that are spliced into whatever rules are already there.
 */
module TunnelIsolation {
  import opened Options
  import opened PacketFilter
  import opened Powers
  import TunnelAddresses

  datatype Address = Address(family: Family, value: int)
  datatype Network = Network(family: Family, value: int, prefix: nat)

  /** The settings after parsing; `None` stands for text that is no network or no address. */
  datatype Settings = Settings(wgInterface: string, cidr: Option<Network>, hubAddress: Option<Address>, controlPort: int)

  datatype Context = Context(iface: string, network: int, prefix: nat, hubIp: int, port: int)

  datatype Result<T> = Ok(value: T) | Err(error: string)

  function RuleContext(settings: Settings): Result<Context> {
    if settings.cidr.None? || settings.hubAddress.None? then Err("HUB_WG_CIDR and HUB_WG_ADDRESS must be valid")
    else if settings.cidr.value.family != V4 || settings.hubAddress.value.family != V4 then Err("requires IPv4")
    else if !InNetwork(settings.hubAddress.value.value, settings.cidr.value.value, settings.cidr.value.prefix) then
      Err("HUB_WG_ADDRESS must be inside HUB_WG_CIDR")
    else if !(1 <= settings.controlPort <= 65535) then Err("HUB_CONTROL_PLANE_PORT must be a valid TCP port")
    else Ok(Context(settings.wgInterface, settings.cidr.value.value, settings.cidr.value.prefix, settings.hubAddress.value.value, settings.controlPort))
  }

  /** The policy in its own terms: what the tunnel may send to the Hub. */
  predicate Permitted(c: Context, p: Packet) {
    || p.ct in {Established, Related}
    || (p.family == V4 && InNetwork(p.source, c.network, c.prefix) && p.destination == c.hubIp
        && p.tcp && p.dport == c.port && p.ct == New)
  }

  // ---------- The nftables back end ----------

  const ESTABLISHED_ONLY := CtIn({Established, Related})

  function NftInput(c: Context): seq<Rule> {
    [Rule([InIface(c.iface), ESTABLISHED_ONLY], Accept),
     Rule([InIface(c.iface), SourceIn(c.network, c.prefix), DestinationIs(c.hubIp), Tcp, Dport(c.port), CtIn({New})], Accept),
     Rule([InIface(c.iface)], Drop)]
  }

  function NftForward(c: Context): seq<Rule> {
    [Rule([InIface(c.iface)], Drop)]
  }

  /** The Hub's own base chain on a hook: it jumps nowhere and accepts by policy. */
  function HubChain(rules: seq<Rule>): BaseChain {
    BaseChain(map[], rules, true)
  }

  // ---------- The iptables back end ----------

  const INPUT := "INPUT"
  const FORWARD := "FORWARD"
  const HUB_INPUT := "OPNHUB_INPUT"
  const HUB_INPUT6 := "OPNHUB_INPUT6"
  const HUB_FORWARD := "OPNHUB_FORWARD"

  function IptablesInput(c: Context): seq<Rule> {
    [Rule([InIface(c.iface), ESTABLISHED_ONLY], Accept),
     Rule([InIface(c.iface), SourceIn(c.network, c.prefix), DestinationIs(c.hubIp), Tcp, Dport(c.port), CtIn({New})], Accept),
     Rule([InIface(c.iface)], Drop)]
  }

  function Ip6tablesInput(iface: string): seq<Rule> {
    [Rule([InIface(iface), ESTABLISHED_ONLY], Accept), Rule([InIface(iface)], Drop)]
  }

  function JumpTo(iface: string, chain: string): Rule {
    Rule([InIface(iface)], Jump(chain))
  }

  /** Delete the first such rule if there is one, then insert it at the top. */
  function Promote(rules: seq<Rule>, r: Rule): seq<Rule> {
    [r] + RemoveFirst(rules, r)
  }

  function Installed4(c: Context, old4: Chains): Chains
    requires INPUT in old4 && FORWARD in old4
  {
    old4[HUB_INPUT := IptablesInput(c)]
        [HUB_FORWARD := [Rule([], Drop)]]
        [INPUT := Promote(old4[INPUT], JumpTo(c.iface, HUB_INPUT))]
        [FORWARD := Promote(old4[FORWARD], JumpTo(c.iface, HUB_FORWARD))]
  }

  function DropForward6(c: Context): Rule {
    Rule([InIface(c.iface)], Drop)
  }

  function Installed6(c: Context, old6: Chains): Chains
    requires INPUT in old6 && FORWARD in old6
  {
    old6[HUB_INPUT6 := Ip6tablesInput(c.iface)]
        [INPUT := Promote(old6[INPUT], JumpTo(c.iface, HUB_INPUT6))]
        [FORWARD := if DropForward6(c) in old6[FORWARD] then old6[FORWARD] else [DropForward6(c)] + old6[FORWARD]]
  }

  // ---------- Both back ends filter alike ----------

  /** The nftables input chain is the policy, and leaves packets from elsewhere alone. */
  lemma NftInputIsThePolicy(env: Env, c: Context, p: Packet, depth: nat)
    ensures Lets(env, HubChain(NftInput(c)), p, depth) == (p.iface != c.iface || Permitted(c, p))
    ensures Lets(env, HubChain(NftForward(c)), p, depth) == (p.iface != c.iface)
  {
    WalkInput(env, map[], c, p, depth);
    WalkDrop(env, map[], [InIface(c.iface)], p, depth);
  }

  lemma WalkInput(env: Env, chains: Chains, c: Context, p: Packet, depth: nat)
    ensures Walk(env, chains, IptablesInput(c), p, depth) ==
      if p.iface != c.iface then FallsThrough else if Permitted(c, p) then Accepted else Dropped
  {
    var r := IptablesInput(c);
    assert Applies(env, r[0], p) <==> p.iface == c.iface && p.ct in {Established, Related} by {
      assert Matches(env, r[0].matches[0], p) <==> p.iface == c.iface;
      assert Matches(env, r[0].matches[1], p) <==> p.ct in {Established, Related};
    }
    assert Applies(env, r[1], p) <==>
      p.iface == c.iface && p.family == V4 && InNetwork(p.source, c.network, c.prefix) && p.destination == c.hubIp
      && p.tcp && p.dport == c.port && p.ct == New by {
      assert Matches(env, r[1].matches[0], p) <==> p.iface == c.iface;
      assert Matches(env, r[1].matches[1], p) <==> p.family == V4 && InNetwork(p.source, c.network, c.prefix);
      assert Matches(env, r[1].matches[2], p) <==> p.family == V4 && p.destination == c.hubIp;
      assert Matches(env, r[1].matches[3], p) <==> p.tcp;
      assert Matches(env, r[1].matches[4], p) <==> p.dport == c.port;
      assert Matches(env, r[1].matches[5], p) <==> p.ct == New;
    }
    assert r[1..][1..] == [r[2]];
    WalkDrop(env, chains, [InIface(c.iface)], p, depth);
  }

  lemma WalkInput6(env: Env, chains: Chains, c: Context, p: Packet, depth: nat)
    requires p.family == V6
    ensures Walk(env, chains, Ip6tablesInput(c.iface), p, depth) ==
      if p.iface != c.iface then FallsThrough else if Permitted(c, p) then Accepted else Dropped
  {
    var r := Ip6tablesInput(c.iface);
    assert Applies(env, r[0], p) <==> p.iface == c.iface && p.ct in {Established, Related} by {
      assert Matches(env, r[0].matches[0], p) <==> p.iface == c.iface;
      assert Matches(env, r[0].matches[1], p) <==> p.ct in {Established, Related};
    }
    assert r[1..] == [r[1]];
    WalkDrop(env, chains, [InIface(c.iface)], p, depth);
  }

  lemma WalkDrop(env: Env, chains: Chains, matches: seq<Match>, p: Packet, depth: nat)
    requires |matches| <= 1
    ensures Walk(env, chains, [Rule(matches, Drop)], p, depth) ==
      if matches == [] || Matches(env, matches[0], p) then Dropped else FallsThrough
  {
    assert Applies(env, Rule(matches, Drop), p) <==> matches == [] || Matches(env, matches[0], p);
  }

  /** A chain that starts with a jump into a chain that decides the packet. */
  lemma JumpDecides(env: Env, chains: Chains, iface: string, chain: string, rest: seq<Rule>, p: Packet, depth: nat)
    requires p.iface == iface && chain in chains && depth > 0
    requires Walk(env, chains, chains[chain], p, depth - 1) != FallsThrough
    ensures Walk(env, chains, [JumpTo(iface, chain)] + rest, p, depth) == Walk(env, chains, chains[chain], p, depth - 1)
  {
    var rules := [JumpTo(iface, chain)] + rest;
    assert Applies(env, rules[0], p);
  }

  ghost predicate HasBuiltins(chains: Chains) {
    INPUT in chains && FORWARD in chains
  }

  /** Whatever rules were there before, a packet from the tunnel gets the policy's verdict from
      iptables or ip6tables, which is the verdict of the Hub's nftables chain. */
  lemma TunnelInputIsDecidedAlike(env: Env, c: Context, old4: Chains, old6: Chains, p: Packet, policyAccepts: bool, depth: nat)
    requires HasBuiltins(old4) && HasBuiltins(old6) && depth > 0 && p.iface == c.iface
    ensures var installed := if p.family == V4 then Installed4(c, old4) else Installed6(c, old6);
      && Passes(env, installed, INPUT, policyAccepts, p, depth) == Permitted(c, p)
      && Passes(env, installed, INPUT, policyAccepts, p, depth) == Lets(env, HubChain(NftInput(c)), p, depth)
  {
    NftInputIsThePolicy(env, c, p, depth);
    if p.family == V4 {
      var chains := Installed4(c, old4);
      WalkInput(env, chains, c, p, depth - 1);
      JumpDecides(env, chains, c.iface, HUB_INPUT, RemoveFirst(old4[INPUT], JumpTo(c.iface, HUB_INPUT)), p, depth);
    } else {
      var chains := Installed6(c, old6);
      WalkInput6(env, chains, c, p, depth - 1);
      JumpDecides(env, chains, c.iface, HUB_INPUT6, RemoveFirst(old6[INPUT], JumpTo(c.iface, HUB_INPUT6)), p, depth);
    }
  }

  /** iptables' own base chain on the input hook. */
  function InputChain(chains: Chains, policyAccepts: bool): BaseChain
    requires INPUT in chains
  {
    BaseChain(chains, chains[INPUT], policyAccepts)
  }

  /** The rules of iptables or ip6tables, whichever sees the packet. */
  function ForFamily(p: Packet, chains4: Chains, chains6: Chains): Chains {
    if p.family == V4 then chains4 else chains6
  }

  /** One host, with iptables' INPUT chain between base chains `b0` and `b1` on its input hook, and the
      packet on its way from the tunnel. The iptables back end writes into that INPUT chain; the
      nftables back end leaves it as it was and adds the Hub's chain somewhere on the hook, which
      makes it `nft`. The two part exactly where the policy permits the packet, every other base
      chain lets it through, and the old INPUT chain drops it. */
  lemma BackEndsPartExactlyThere(env: Env, c: Context, old4: Chains, old6: Chains, policyAccepts: bool,
                                 b0: seq<BaseChain>, b1: seq<BaseChain>, nft: seq<BaseChain>, hub: nat, p: Packet, depth: nat)
    requires HasBuiltins(old4) && HasBuiltins(old6) && depth > 0 && p.iface == c.iface
    requires hub < |nft| && nft[hub] == HubChain(NftInput(c))
    requires nft[..hub] + nft[hub+1..] == b0 + [InputChain(ForFamily(p, old4, old6), policyAccepts)] + b1
    ensures var prior := InputChain(ForFamily(p, old4, old6), policyAccepts);
      var installed := InputChain(ForFamily(p, Installed4(c, old4), Installed6(c, old6)), policyAccepts);
      HookPasses(env, b0 + [installed] + b1, p, depth) != HookPasses(env, nft, p, depth)
      <==> Permitted(c, p) && HookPasses(env, b0 + b1, p, depth) && !Lets(env, prior, p, depth)
  {
    var prior := InputChain(ForFamily(p, old4, old6), policyAccepts);
    var installed := InputChain(ForFamily(p, Installed4(c, old4), Installed6(c, old6)), policyAccepts);
    TunnelInputIsDecidedAlike(env, c, old4, old6, p, policyAccepts, depth);
    NftInputIsThePolicy(env, c, p, depth);
    HookAround(env, b0, installed, b1, p, depth);
    HookAround(env, b0, prior, b1, p, depth);
    assert nft == nft[..hub] + [nft[hub]] + nft[hub+1..];
    HookAround(env, nft[..hub], nft[hub], nft[hub+1..], p, depth);
  }

  /** A new connection to the control port, from some address of the tunnel's side. */
  function FromTheTunnel(settings: Settings, source: int): Packet
    requires settings.hubAddress.Some?
  {
    Packet(V4, settings.wgInterface, source, settings.hubAddress.value.value, true, settings.controlPort, New, "")
  }

  /** A host whose INPUT chain drops by policy and has no rule for the control port. */
  const CLOSED_HOST: Chains := map[INPUT := [Rule([CtIn({Established, Related})], Accept)], FORWARD := []]

  lemma ClosedToNew(env: Env, p: Packet, depth: nat)
    requires p.ct == New
    ensures !Lets(env, InputChain(CLOSED_HOST, false), p, depth)
  {
    var rules := CLOSED_HOST[INPUT];
    assert !Matches(env, rules[0].matches[0], p);
    assert !Applies(env, rules[0], p);
    assert Walk(env, CLOSED_HOST, rules[1..], p, depth) == FallsThrough;
  }

  /** On that host the two back ends part: the iptables back end lets a firewall of the tunnel reach
      the control port, and with the nftables back end the INPUT chain drops the connection. */
  lemma AClosedHostStaysClosed(env: Env, settings: Settings, depth: nat)
    requires depth > 0 && RuleContext(settings).Ok?
    ensures var c := RuleContext(settings).value; var p := FromTheTunnel(settings, settings.hubAddress.value.value);
      && HookPasses(env, [InputChain(Installed4(c, CLOSED_HOST), false)], p, depth)
      && !HookPasses(env, [HubChain(NftInput(c)), InputChain(CLOSED_HOST, false)], p, depth)
  {
    var c := RuleContext(settings).value;
    var p := FromTheTunnel(settings, settings.hubAddress.value.value);
    TunnelInputIsDecidedAlike(env, c, CLOSED_HOST, CLOSED_HOST, p, false, depth);
    ClosedToNew(env, p, depth);
    HookAround(env, [], InputChain(Installed4(c, CLOSED_HOST), false), [], p, depth);
    HookAround(env, [HubChain(NftInput(c))], InputChain(CLOSED_HOST, false), [], p, depth);
    assert [] + [InputChain(Installed4(c, CLOSED_HOST), false)] + [] == [InputChain(Installed4(c, CLOSED_HOST), false)];
    assert [HubChain(NftInput(c))] + [InputChain(CLOSED_HOST, false)] + [] == [HubChain(NftInput(c)), InputChain(CLOSED_HOST, false)];
  }

  /** No IPv4 packet from the tunnel is forwarded; with nftables no packet at all, whatever the other
      base chains on the hook say. */
  lemma TunnelForwardIsDropped4(env: Env, c: Context, old4: Chains, bases: seq<BaseChain>, p: Packet, policyAccepts: bool, depth: nat)
    requires HasBuiltins(old4) && depth > 0 && p.iface == c.iface
    ensures !Passes(env, Installed4(c, old4), FORWARD, policyAccepts, p, depth)
    ensures HubChain(NftForward(c)) in bases ==> !HookPasses(env, bases, p, depth)
  {
    var chains := Installed4(c, old4);
    NftInputIsThePolicy(env, c, p, depth);
    HookAsksEveryone(env, bases, p, depth);
    WalkDrop(env, chains, [], p, depth - 1);
    JumpDecides(env, chains, c.iface, HUB_FORWARD, RemoveFirst(old4[FORWARD], JumpTo(c.iface, HUB_FORWARD)), p, depth);
  }

  // ---------- IPv6 forwarding: a drop rule that is already there is left where it is ----------

  /** The rules in front of the Hub's drop rule. */
  function BeforeDrop(rules: seq<Rule>, r: Rule): seq<Rule> {
    if rules == [] || rules[0] == r then [] else [rules[0]] + BeforeDrop(rules[1..], r)
  }

  /** For a packet from the tunnel the list ends at the drop rule. */
  lemma {:induction false} DropRuleCuts(env: Env, chains: Chains, rules: seq<Rule>, c: Context, p: Packet, depth: nat)
    requires DropForward6(c) in rules && p.iface == c.iface
    ensures Walk(env, chains, rules, p, depth) == Walk(env, chains, BeforeDrop(rules, DropForward6(c)) + [Rule([], Drop)], p, depth)
  {
    var cut := BeforeDrop(rules, DropForward6(c)) + [Rule([], Drop)];
    if rules[0] == DropForward6(c) {
      assert cut == [Rule([], Drop)];
      assert Applies(env, rules[0], p);
      WalkDrop(env, chains, [], p, depth);
    } else {
      assert cut[1..] == BeforeDrop(rules[1..], DropForward6(c)) + [Rule([], Drop)] && cut[0] == rules[0];
      DropRuleCuts(env, chains, rules[1..], c, p, depth);
    }
  }

  /** The rules in front of a drop rule that was already there let the packet through, with the
      other chains as in `chains`. */
  ghost predicate LetThroughBefore(env: Env, c: Context, old6: Chains, chains: Chains, policyAccepts: bool, p: Packet, depth: nat)
    requires HasBuiltins(old6)
  {
    && DropForward6(c) in old6[FORWARD]
    && Passes(env, chains[FORWARD := Cut(c, old6)], FORWARD, policyAccepts, p, depth)
  }

  function Cut(c: Context, old6: Chains): seq<Rule>
    requires HasBuiltins(old6)
  {
    BeforeDrop(old6[FORWARD], DropForward6(c)) + [Rule([], Drop)]
  }

  /** No user rule jumps to a built-in chain; the kernel refuses such a rule. */
  ghost predicate NoJumpToBuiltin(chains: Chains) {
    forall name, i :: name in chains && 0 <= i < |chains[name]| ==>
      chains[name][i].target != Jump(INPUT) && chains[name][i].target != Jump(FORWARD)
  }

  /** Only the input chain jumps into the Hub's. */
  ghost predicate OnlyInputJumps(chains: Chains) {
    forall name, i :: name in chains && name != INPUT && 0 <= i < |chains[name]| ==> chains[name][i].target != Jump(HUB_INPUT6)
  }

  /** An IPv6 packet from the tunnel is forwarded exactly when the drop rule was there before and
      the old rules in front of it let the packet through. */
  lemma TunnelForward6(env: Env, c: Context, old6: Chains, p: Packet, policyAccepts: bool, depth: nat)
    requires HasBuiltins(old6) && NoJumpToBuiltin(old6) && OnlyInputJumps(old6) && depth > 0 && p.iface == c.iface
    ensures Passes(env, Installed6(c, old6), FORWARD, policyAccepts, p, depth) <==> LetThroughBefore(env, c, old6, old6, policyAccepts, p, depth)
  {
    TunnelForward6Anyway(env, c, old6, p, policyAccepts, depth);
    if DropForward6(c) in old6[FORWARD] {
      var cut := Cut(c, old6);
      var now, was := Installed6(c, old6)[FORWARD := cut], old6[FORWARD := cut];
      CutAvoids(env, c, old6, p);
      forall name | name in now && name !in {FORWARD, INPUT, HUB_INPUT6} ensures Avoids(env, now[name], {FORWARD, INPUT, HUB_INPUT6}, p) {
        assert now[name] == old6[name];
      }
      UnreachedChainsDoNotMatter(env, now, was, {FORWARD, INPUT, HUB_INPUT6}, cut, p, depth);
    }
  }

  lemma CutAvoids(env: Env, c: Context, old6: Chains, p: Packet)
    requires HasBuiltins(old6) && NoJumpToBuiltin(old6) && OnlyInputJumps(old6)
    ensures Avoids(env, Cut(c, old6), {FORWARD, INPUT, HUB_INPUT6}, p)
  {
    BeforeDropIsPart(old6[FORWARD], DropForward6(c));
    assert forall x :: x in old6[FORWARD] ==> x.target != Jump(FORWARD) && x.target != Jump(INPUT) && x.target != Jump(HUB_INPUT6);
    assert forall x :: x in Cut(c, old6) ==> x.target != Jump(FORWARD) && x.target != Jump(INPUT) && x.target != Jump(HUB_INPUT6);
  }

  /** Nothing from the tunnel is forwarded where the drop rule was missing or stood first. */
  lemma NothingForwarded6(env: Env, c: Context, old6: Chains, p: Packet, policyAccepts: bool, depth: nat)
    requires HasBuiltins(old6) && p.iface == c.iface
    requires DropForward6(c) !in old6[FORWARD] || old6[FORWARD][0] == DropForward6(c)
    ensures !Passes(env, Installed6(c, old6), FORWARD, policyAccepts, p, depth)
  {
    assert Installed6(c, old6)[FORWARD][0] == DropForward6(c) && Applies(env, DropForward6(c), p);
  }

  /** The same where other chains may jump into the Hub's: then the rules in front of the drop rule
      are read with the Hub's new chain in place. */
  lemma TunnelForward6Anyway(env: Env, c: Context, old6: Chains, p: Packet, policyAccepts: bool, depth: nat)
    requires HasBuiltins(old6) && NoJumpToBuiltin(old6) && depth > 0 && p.iface == c.iface
    ensures Passes(env, Installed6(c, old6), FORWARD, policyAccepts, p, depth)
      <==> LetThroughBefore(env, c, old6, Installed6(c, old6), policyAccepts, p, depth)
  {
    var installed := Installed6(c, old6);
    if DropForward6(c) in old6[FORWARD] {
      var cut := Cut(c, old6);
      DropRuleCuts(env, installed, old6[FORWARD], c, p, depth);
      forall name | name in installed ensures Avoids(env, installed[name], {FORWARD}, p) {
        InstalledJumps(c, old6, name);
      }
      BeforeDropIsPart(old6[FORWARD], DropForward6(c));
      assert forall x :: x in old6[FORWARD] ==> x.target != Jump(FORWARD);
      assert forall x :: x in cut ==> x.target != Jump(FORWARD);
      assert Avoids(env, cut, {FORWARD}, p);
      UnreachedChainsDoNotMatter(env, installed, installed[FORWARD := cut], {FORWARD}, cut, p, depth);
    } else {
      NothingForwarded6(env, c, old6, p, policyAccepts, depth);
    }
  }

  lemma InstalledJumps(c: Context, old6: Chains, name: string)
    requires HasBuiltins(old6) && NoJumpToBuiltin(old6) && name in Installed6(c, old6)
    ensures var rules := Installed6(c, old6)[name]; forall i :: 0 <= i < |rules| ==> rules[i].target != Jump(FORWARD)
  {
    var jump := JumpTo(c.iface, HUB_INPUT6);
    RemoveFirstIsPart(old6[INPUT], jump);
    assert forall x :: x in old6[INPUT] ==> x.target != Jump(FORWARD);
    assert forall x :: x in Promote(old6[INPUT], jump) ==> x.target != Jump(FORWARD);
  }

  lemma {:induction false} RemoveFirstIsPart(rules: seq<Rule>, r: Rule)
    ensures forall x :: x in RemoveFirst(rules, r) ==> x in rules
  {
    if rules != [] && rules[0] != r {
      RemoveFirstIsPart(rules[1..], r);
    }
  }

  lemma {:induction false} BeforeDropIsPart(rules: seq<Rule>, r: Rule)
    ensures forall x :: x in BeforeDrop(rules, r) ==> x in rules
  {
    if rules != [] && rules[0] != r {
      BeforeDropIsPart(rules[1..], r);
    }
  }

  /** Such a ruleset exists: an accept rule in front of the drop rule survives the installation. */
  lemma AnOlderAcceptStillForwards(env: Env, c: Context, p: Packet, depth: nat)
    requires p.family == V6 && p.iface == c.iface && depth > 0
    ensures var old6 := map[INPUT := [], FORWARD := [Rule([], Accept), DropForward6(c)]];
      Passes(env, Installed6(c, old6), FORWARD, false, p, depth) && !Lets(env, HubChain(NftForward(c)), p, depth)
  {
    var old6: Chains := map[INPUT := [], FORWARD := [Rule([], Accept), DropForward6(c)]];
    assert Installed6(c, old6)[FORWARD] == old6[FORWARD];
    assert Applies(env, Rule([], Accept), p);
    NftInputIsThePolicy(env, c, p, depth);
  }

  // ---------- Other traffic ----------

  /** The Hub's chain names are its own: any rule elsewhere that jumps to one of them is
      restricted to packets from the tunnel. */
  ghost predicate NamesAreFree(chains: Chains, names: set<string>, iface: string) {
    forall name, i :: (name in chains && name !in names && 0 <= i < |chains[name]|
        && chains[name][i].target.Jump? && chains[name][i].target.chain in names)
      ==> InIface(iface) in chains[name][i].matches
  }

  lemma FreeNamesAreAvoided(env: Env, chains: Chains, names: set<string>, iface: string, name: string, p: Packet)
    requires NamesAreFree(chains, names, iface) && NoJumpToBuiltin(chains) && name in chains && name !in names && p.iface != iface
    ensures Avoids(env, chains[name], names + {INPUT, FORWARD}, p)
  {
    var rules := chains[name];
    forall i | 0 <= i < |rules| && rules[i].target.Jump? && rules[i].target.chain in names + {INPUT, FORWARD}
      ensures !Applies(env, rules[i], p)
    {
      assert rules[i].target != Jump(INPUT) && rules[i].target != Jump(FORWARD);
      assert InIface(iface) in rules[i].matches;
      var k :| 0 <= k < |rules[i].matches| && rules[i].matches[k] == InIface(iface);
      assert !Matches(env, rules[i].matches[k], p);
    }
  }

  /** Same chains outside `names` and the built-ins; the walk of a packet from elsewhere agrees. */
  lemma ElsewhereAgrees(env: Env, a: Chains, b: Chains, names: set<string>, iface: string, builtin: string, p: Packet, depth: nat)
    requires builtin in a && builtin !in names && p.iface != iface
    requires NamesAreFree(a, names, iface) && NoJumpToBuiltin(a)
    requires forall n :: n !in names + {INPUT, FORWARD} ==> (n in a <==> n in b) && (n in a ==> a[n] == b[n])
    ensures Walk(env, a, a[builtin], p, depth) == Walk(env, b, a[builtin], p, depth)
  {
    forall n | n in a && n !in names + {INPUT, FORWARD} ensures Avoids(env, a[n], names + {INPUT, FORWARD}, p) {
      FreeNamesAreAvoided(env, a, names, iface, n, p);
    }
    FreeNamesAreAvoided(env, a, names, iface, builtin, p);
    UnreachedChainsDoNotMatter(env, a, b, names + {INPUT, FORWARD}, a[builtin], p, depth);
  }

  lemma PromoteKeepsOthers(env: Env, chains: Chains, rules: seq<Rule>, iface: string, chain: string, p: Packet, depth: nat)
    requires p.iface != iface
    ensures Walk(env, chains, Promote(rules, JumpTo(iface, chain)), p, depth) == Walk(env, chains, rules, p, depth)
  {
    var jump := JumpTo(iface, chain);
    assert !Matches(env, jump.matches[0], p);
    assert Promote(rules, jump)[1..] == RemoveFirst(rules, jump);
    RemovingKeepsVerdict(env, chains, rules, jump, p, depth);
  }

  /** A packet from anywhere else keeps the verdict it had, in both built-in chains and in both
      families, and on an nftables hook, at whatever place the Hub's base chain is put. */
  lemma OtherTrafficKeepsItsVerdict(env: Env, c: Context, old4: Chains, old6: Chains,
                                   before: seq<BaseChain>, after: seq<BaseChain>, builtin: string, p: Packet, policyAccepts: bool, depth: nat)
    requires HasBuiltins(old4) && NoJumpToBuiltin(old4) && NamesAreFree(old4, {HUB_INPUT, HUB_FORWARD}, c.iface)
    requires HasBuiltins(old6) && NoJumpToBuiltin(old6) && NamesAreFree(old6, {HUB_INPUT6}, c.iface)
    requires builtin == INPUT || builtin == FORWARD
    requires p.iface != c.iface
    ensures Passes(env, Installed4(c, old4), builtin, policyAccepts, p, depth) == Passes(env, old4, builtin, policyAccepts, p, depth)
    ensures Passes(env, Installed6(c, old6), builtin, policyAccepts, p, depth) == Passes(env, old6, builtin, policyAccepts, p, depth)
    ensures HookPasses(env, before + [HubChain(if builtin == INPUT then NftInput(c) else NftForward(c))] + after, p, depth) == HookPasses(env, before + after, p, depth)
  {
    var new4, new6 := Installed4(c, old4), Installed6(c, old6);
    ElsewhereAgrees(env, old4, new4, {HUB_INPUT, HUB_FORWARD}, c.iface, builtin, p, depth);
    ElsewhereAgrees(env, old6, new6, {HUB_INPUT6}, c.iface, builtin, p, depth);
    PromoteKeepsOthers(env, new4, old4[INPUT], c.iface, HUB_INPUT, p, depth);
    PromoteKeepsOthers(env, new4, old4[FORWARD], c.iface, HUB_FORWARD, p, depth);
    PromoteKeepsOthers(env, new6, old6[INPUT], c.iface, HUB_INPUT6, p, depth);
    assert !Matches(env, DropForward6(c).matches[0], p) && !Applies(env, DropForward6(c), p);
    assert ([DropForward6(c)] + old6[FORWARD])[1..] == old6[FORWARD];
    NftInputIsThePolicy(env, c, p, depth);
    HookAround(env, before, HubChain(if builtin == INPUT then NftInput(c) else NftForward(c)), after, p, depth);
  }

  // ---------- Installing again ----------

  /** A later installation for the same interface replaces the earlier one without a trace. */
  lemma LastInstallationWins(c1: Context, c2: Context, old4: Chains, old6: Chains)
    requires HasBuiltins(old4) && HasBuiltins(old6) && c1.iface == c2.iface
    ensures Installed4(c2, Installed4(c1, old4)) == Installed4(c2, old4)
    ensures Installed6(c2, Installed6(c1, old6)) == Installed6(c2, old6)
  {
    assert Promote(Promote(old4[INPUT], JumpTo(c1.iface, HUB_INPUT)), JumpTo(c2.iface, HUB_INPUT)) == Promote(old4[INPUT], JumpTo(c2.iface, HUB_INPUT));
    assert Promote(Promote(old4[FORWARD], JumpTo(c1.iface, HUB_FORWARD)), JumpTo(c2.iface, HUB_FORWARD)) == Promote(old4[FORWARD], JumpTo(c2.iface, HUB_FORWARD));
    assert Promote(Promote(old6[INPUT], JumpTo(c1.iface, HUB_INPUT6)), JumpTo(c2.iface, HUB_INPUT6)) == Promote(old6[INPUT], JumpTo(c2.iface, HUB_INPUT6));
  }

  // ---------- From the settings to the verdicts ----------

  /** A network is the aligned block of its size that holds the address it is written with. */
  lemma NetworksAreBlocks(address: int, network: int, prefix: nat)
    ensures InNetwork(address, network, prefix) <==>
      prefix <= 32 && var size := Pow2(32 - prefix); network - network % size <= address < network - network % size + size
  {
    if prefix <= 32 {
      TunnelAddresses.InsideIsSameBlock(network, address, Pow2(32 - prefix));
    }
  }

  /** What the iptables back end makes of the settings, and of the chains that it finds: nothing
      when it refuses them. */
  function IptablesAfter(settings: Settings, old4: Chains, old6: Chains): Option<(Chains, Chains)>
    requires HasBuiltins(old4) && HasBuiltins(old6)
  {
    match RuleContext(settings)
    case Err(_) => None
    case Ok(c) => Some((Installed4(c, old4), Installed6(c, old6)))
  }

  /** The Hub's table, by the names of its chains. */
  function NftTable(c: Context): map<string, seq<Rule>> {
    map["input" := NftInput(c), "forward" := NftForward(c)]
  }

  function NftablesAfter(settings: Settings): Option<map<string, seq<Rule>>> {
    match RuleContext(settings)
    case Err(_) => None
    case Ok(c) => Some(NftTable(c))
  }

  /** Both back ends accept the settings if and only if network and address are IPv4, the address lies in
      the network, and the port is a TCP port. */
  lemma AcceptedExactlyWhen(settings: Settings, old4: Chains, old6: Chains)
    requires HasBuiltins(old4) && HasBuiltins(old6)
    ensures var accepted :=
      && settings.cidr.Some? && settings.cidr.value.family == V4
      && settings.hubAddress.Some? && settings.hubAddress.value.family == V4
      && InNetwork(settings.hubAddress.value.value, settings.cidr.value.value, settings.cidr.value.prefix)
      && 1 <= settings.controlPort <= 65535;
      (IptablesAfter(settings, old4, old6).Some? <==> accepted) && (NftablesAfter(settings).Some? <==> accepted)
  {
  }

  /** After an accepted installation by iptables, on whatever chains there were: what comes from the tunnel
      interface of the settings passes INPUT if and only if its connection is known, or it is a new TCP
      connection from the tunnel's network to the Hub's control port; and none of it is forwarded over IPv4. What comes
      from elsewhere keeps the verdict it had, where the Hub's chain names were free. */
  lemma IptablesIsolatesTheTunnel(env: Env, settings: Settings, old4: Chains, old6: Chains, p: Packet, policyAccepts: bool, depth: nat)
    requires HasBuiltins(old4) && HasBuiltins(old6) && depth > 0
    requires IptablesAfter(settings, old4, old6).Some?
    ensures var (new4, new6) := IptablesAfter(settings, old4, old6).value; HasBuiltins(new4) && HasBuiltins(new6)
    ensures var (new4, new6) := IptablesAfter(settings, old4, old6).value;
      p.iface == settings.wgInterface ==>
        && (Passes(env, ForFamily(p, new4, new6), INPUT, policyAccepts, p, depth) <==>
              || p.ct == Established || p.ct == Related
              || (p.ct == New && p.family == V4 && p.tcp && InNetwork(p.source, settings.cidr.value.value, settings.cidr.value.prefix)
                  && p.destination == settings.hubAddress.value.value && p.dport == settings.controlPort))
        && !Passes(env, new4, FORWARD, policyAccepts, p, depth)
    ensures var (new4, new6) := IptablesAfter(settings, old4, old6).value;
      p.iface != settings.wgInterface
      && NoJumpToBuiltin(old4) && NamesAreFree(old4, {HUB_INPUT, HUB_FORWARD}, settings.wgInterface)
      && NoJumpToBuiltin(old6) && NamesAreFree(old6, {HUB_INPUT6}, settings.wgInterface) ==>
        && Passes(env, new4, INPUT, policyAccepts, p, depth) == Passes(env, old4, INPUT, policyAccepts, p, depth)
        && Passes(env, new6, INPUT, policyAccepts, p, depth) == Passes(env, old6, INPUT, policyAccepts, p, depth)
        && Passes(env, new4, FORWARD, policyAccepts, p, depth) == Passes(env, old4, FORWARD, policyAccepts, p, depth)
        && Passes(env, new6, FORWARD, policyAccepts, p, depth) == Passes(env, old6, FORWARD, policyAccepts, p, depth)
  {
    var c := RuleContext(settings).value;
    if p.iface == settings.wgInterface {
      TunnelInputIsDecidedAlike(env, c, old4, old6, p, policyAccepts, depth);
      TunnelForwardIsDropped4(env, c, old4, [], p, policyAccepts, depth);
    } else if NoJumpToBuiltin(old4) && NamesAreFree(old4, {HUB_INPUT, HUB_FORWARD}, settings.wgInterface)
      && NoJumpToBuiltin(old6) && NamesAreFree(old6, {HUB_INPUT6}, settings.wgInterface)
    {
      OtherTrafficKeepsItsVerdict(env, c, old4, old6, [], [], INPUT, p, policyAccepts, depth);
      OtherTrafficKeepsItsVerdict(env, c, old4, old6, [], [], FORWARD, p, policyAccepts, depth);
    }
  }

  /** The same for the nftables back end, with its two base chains anywhere on their hooks. */
  lemma NftablesIsolatesTheTunnel(env: Env, settings: Settings, before: seq<BaseChain>, after: seq<BaseChain>, p: Packet, depth: nat)
    requires NftablesAfter(settings).Some?
    ensures NftablesAfter(settings).value.Keys == {"input", "forward"}
    ensures HookPasses(env, before + [HubChain(NftablesAfter(settings).value["input"])] + after, p, depth) <==>
      HookPasses(env, before + after, p, depth) &&
        (p.iface == settings.wgInterface ==>
          || p.ct == Established || p.ct == Related
          || (p.ct == New && p.family == V4 && p.tcp && InNetwork(p.source, settings.cidr.value.value, settings.cidr.value.prefix)
              && p.destination == settings.hubAddress.value.value && p.dport == settings.controlPort))
    ensures HookPasses(env, before + [HubChain(NftablesAfter(settings).value["forward"])] + after, p, depth) <==>
      HookPasses(env, before + after, p, depth) && p.iface != settings.wgInterface
  {
    var c := RuleContext(settings).value;
    assert "input" != "forward";
    NftInputIsThePolicy(env, c, p, depth);
    HookAround(env, before, HubChain(NftInput(c)), after, p, depth);
    HookAround(env, before, HubChain(NftForward(c)), after, p, depth);
  }

  /** A new connection to the control port is let through exactly from the addresses of the tunnel's
      network, whatever rules were there before. */
  lemma OnlyTheTunnelConnects(env: Env, settings: Settings, old4: Chains, old6: Chains, source: int, policyAccepts: bool, depth: nat)
    requires HasBuiltins(old4) && HasBuiltins(old6) && depth > 0 && IptablesAfter(settings, old4, old6).Some?
    ensures HasBuiltins(IptablesAfter(settings, old4, old6).value.0)
    ensures var size := Pow2(32 - settings.cidr.value.prefix); var base := settings.cidr.value.value - settings.cidr.value.value % size;
      Passes(env, IptablesAfter(settings, old4, old6).value.0, INPUT, policyAccepts, FromTheTunnel(settings, source), depth)
      <==> base <= source < base + size
  {
    IptablesIsolatesTheTunnel(env, settings, old4, old6, FromTheTunnel(settings, source), policyAccepts, depth);
    NetworksAreBlocks(source, settings.cidr.value.value, settings.cidr.value.prefix);
  }
}
