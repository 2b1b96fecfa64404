/**
 The installers of `hardening.py`, command by command. Each command returns whether its exit
 status was zero; a failed command ends the installation with an error.
 */
module FirewallHost {
  import opened PacketFilter
  import opened TunnelIsolation

  /** The filter table that one of `iptables` and `ip6tables` works on. */
  class FilterTable {
    var chains: Chains

    constructor (chains: Chains)
      ensures this.chains == chains
    {
      this.chains := chains;
    }

    method List(chain: string) returns (ok: bool)
      ensures ok <==> chain in chains
    {
      ok := chain in chains;
    }

    method NewChain(chain: string) returns (ok: bool)
      modifies this
      ensures ok <==> chain !in old(chains)
      ensures chains == if ok then old(chains)[chain := []] else old(chains)
    {
      ok := chain !in chains;
      if ok {
        chains := chains[chain := []];
      }
    }

    method Flush(chain: string) returns (ok: bool)
      modifies this
      ensures ok <==> chain in old(chains)
      ensures chains == if ok then old(chains)[chain := []] else old(chains)
    {
      ok := chain in chains;
      if ok {
        chains := chains[chain := []];
      }
    }

    predicate Accepts(chain: string, rule: Rule)
      reads this
    {
      chain in chains && (rule.target.Jump? ==> rule.target.chain in chains)
    }

    method Append(chain: string, rule: Rule) returns (ok: bool)
      modifies this
      ensures ok <==> old(Accepts(chain, rule))
      ensures chains == if ok then old(chains)[chain := old(chains)[chain] + [rule]] else old(chains)
    {
      ok := Accepts(chain, rule);
      if ok {
        chains := chains[chain := chains[chain] + [rule]];
      }
    }

    method InsertFirst(chain: string, rule: Rule) returns (ok: bool)
      modifies this
      ensures ok <==> old(Accepts(chain, rule))
      ensures chains == if ok then old(chains)[chain := [rule] + old(chains)[chain]] else old(chains)
    {
      ok := Accepts(chain, rule);
      if ok {
        chains := chains[chain := [rule] + chains[chain]];
      }
    }

    method Check(chain: string, rule: Rule) returns (ok: bool)
      ensures ok <==> chain in chains && rule in chains[chain]
    {
      ok := chain in chains && rule in chains[chain];
    }

    method Delete(chain: string, rule: Rule) returns (ok: bool)
      modifies this
      ensures ok <==> chain in old(chains) && rule in old(chains)[chain]
      ensures chains == if ok then old(chains)[chain := RemoveFirst(old(chains)[chain], rule)] else old(chains)
    {
      ok := chain in chains && rule in chains[chain];
      if ok {
        chains := chains[chain := RemoveFirst(chains[chain], rule)];
      }
    }
  }

  lemma RemoveAbsent(rules: seq<Rule>, r: Rule)
    requires r !in rules
    ensures RemoveFirst(rules, r) == rules
  {
  }

  /** `_ensure_iptables_chain` */
  method EnsureChain(table: FilterTable, chain: string) returns (ok: bool)
    modifies table
    ensures ok && table.chains == old(table.chains)[chain := []]
  {
    var present := table.List(chain);
    if !present {
      ok := table.NewChain(chain);
      if !ok {
        return;
      }
    }
    ok := table.Flush(chain);
  }

  /** `_install_iptables_jump` */
  method InstallJump(table: FilterTable, parent: string, iface: string, target: string) returns (ok: bool)
    modifies table
    ensures ok <==> parent in old(table.chains) && target in old(table.chains)
    ensures ok ==> table.chains == old(table.chains)[parent := Promote(old(table.chains)[parent], JumpTo(iface, target))]
  {
    var jump := JumpTo(iface, target);
    var present := table.Check(parent, jump);
    if present {
      ok := table.Delete(parent, jump);
      if !ok {
        return;
      }
    } else if parent in table.chains {
      RemoveAbsent(table.chains[parent], jump);
    }
    ok := table.InsertFirst(parent, jump);
  }

  /** Append a list of rules to a chain, one command each. */
  method AppendAll(table: FilterTable, chain: string, rules: seq<Rule>) returns (ok: bool)
    requires chain in table.chains && forall i :: 0 <= i < |rules| ==> !rules[i].target.Jump?
    modifies table
    ensures ok && table.chains == old(table.chains)[chain := old(table.chains)[chain] + rules]
  {
    ok := true;
    assert rules[..0] == [] && table.chains[chain] + [] == table.chains[chain];
    assert table.chains == table.chains[chain := table.chains[chain]];
    for i := 0 to |rules|
      invariant ok && table.chains == old(table.chains)[chain := old(table.chains)[chain] + rules[..i]]
    {
      ok := table.Append(chain, rules[i]);
      assert rules[..i+1] == rules[..i] + [rules[i]];
      assert old(table.chains)[chain] + rules[..i+1] == old(table.chains)[chain] + rules[..i] + [rules[i]];
    }
    assert rules[..|rules|] == rules;
  }

  /** The Hub's own chains, emptied and filled. */
  function Filled4(c: Context, chains: Chains): Chains {
    chains[HUB_INPUT := IptablesInput(c)][HUB_FORWARD := [Rule([], Drop)]]
  }

  function Filled6(c: Context, chains: Chains): Chains {
    chains[HUB_INPUT6 := Ip6tablesInput(c.iface)]
  }

  method FillChains(table4: FilterTable, table6: FilterTable, c: Context) returns (ok: bool)
    requires table4 != table6
    modifies table4, table6
    ensures ok && table4.chains == Filled4(c, old(table4.chains)) && table6.chains == Filled6(c, old(table6.chains))
  {
    var done1 := EnsureChain(table4, HUB_INPUT);
    var done2 := EnsureChain(table4, HUB_FORWARD);
    var done3 := EnsureChain(table6, HUB_INPUT6);
    var done4 := AppendAll(table4, HUB_INPUT, IptablesInput(c));
    var done5 := AppendAll(table6, HUB_INPUT6, Ip6tablesInput(c.iface));
    var done6 := AppendAll(table4, HUB_FORWARD, [Rule([], Drop)]);
    ok := done1 && done2 && done3 && done4 && done5 && done6;
    assert [] + IptablesInput(c) == IptablesInput(c) && [] + Ip6tablesInput(c.iface) == Ip6tablesInput(c.iface);
    assert [] + [Rule([], Drop)] == [Rule([], Drop)];
    assert table4.chains == Filled4(c, old(table4.chains));
    assert table6.chains == Filled6(c, old(table6.chains));
  }

  /** `install_iptables_rules`: refused settings change nothing; otherwise both tables end as the
      policy says, whatever they held before. */
  method InstallIptables(table4: FilterTable, table6: FilterTable, settings: Settings) returns (ok: bool)
    requires table4 != table6 && HasBuiltins(table4.chains) && HasBuiltins(table6.chains)
    modifies table4, table6
    ensures ok <==>
      && settings.cidr.Some? && settings.cidr.value.family == V4 && settings.hubAddress.Some? && settings.hubAddress.value.family == V4
      && InNetwork(settings.hubAddress.value.value, settings.cidr.value.value, settings.cidr.value.prefix) && 1 <= settings.controlPort <= 65535
    ensures match IptablesAfter(settings, old(table4.chains), old(table6.chains))
      case None => !ok && table4.chains == old(table4.chains) && table6.chains == old(table6.chains)
      case Some((new4, new6)) => ok && table4.chains == new4 && table6.chains == new6
  {
    var context := RuleContext(settings);
    if context.Err? {
      return false;
    }
    var c := context.value;
    var done1 := FillChains(table4, table6, c);
    var done2 := InstallJump(table4, INPUT, c.iface, HUB_INPUT);
    var done3 := InstallJump(table4, FORWARD, c.iface, HUB_FORWARD);
    var done4 := InstallJump(table6, INPUT, c.iface, HUB_INPUT6);
    ok := done1 && done2 && done3 && done4;
    var present := table6.Check(FORWARD, DropForward6(c));
    if !present {
      var done5 := table6.InsertFirst(FORWARD, DropForward6(c));
      ok := ok && done5;
    }
  }

  /** `verify_iptables_rule_present` */
  method VerifyIptables(table4: FilterTable, table6: FilterTable, c: Context) returns (ok: bool)
    ensures ok <==> AllPresent(c, table4.chains, table6.chains)
  {
    var checks4 := [(INPUT, JumpTo(c.iface, HUB_INPUT)), (FORWARD, JumpTo(c.iface, HUB_FORWARD)), (HUB_FORWARD, Rule([], Drop))]
      + seq(|IptablesInput(c)|, i requires 0 <= i < |IptablesInput(c)| => (HUB_INPUT, IptablesInput(c)[i]));
    var checks6 := [(INPUT, JumpTo(c.iface, HUB_INPUT6)), (FORWARD, DropForward6(c))]
      + seq(|Ip6tablesInput(c.iface)|, i requires 0 <= i < |Ip6tablesInput(c.iface)| => (HUB_INPUT6, Ip6tablesInput(c.iface)[i]));
    ok := true;
    for i := 0 to |checks4|
      invariant ok ==> forall k :: 0 <= k < i ==> checks4[k].0 in table4.chains && checks4[k].1 in table4.chains[checks4[k].0]
      invariant !ok ==> !AllPresent(c, table4.chains, table6.chains)
    {
      var present := table4.Check(checks4[i].0, checks4[i].1);
      ok := ok && present;
    }
    for i := 0 to |checks6|
      invariant ok ==> forall k :: 0 <= k < |checks4| ==> checks4[k].0 in table4.chains && checks4[k].1 in table4.chains[checks4[k].0]
      invariant ok ==> forall k :: 0 <= k < i ==> checks6[k].0 in table6.chains && checks6[k].1 in table6.chains[checks6[k].0]
      invariant !ok ==> !AllPresent(c, table4.chains, table6.chains)
    {
      var present := table6.Check(checks6[i].0, checks6[i].1);
      ok := ok && present;
    }
    if ok {
      assert checks4[0] == (INPUT, JumpTo(c.iface, HUB_INPUT)) && checks4[1] == (FORWARD, JumpTo(c.iface, HUB_FORWARD)) && checks4[2] == (HUB_FORWARD, Rule([], Drop));
      assert checks4[3] == (HUB_INPUT, IptablesInput(c)[0]) && checks4[4] == (HUB_INPUT, IptablesInput(c)[1]) && checks4[5] == (HUB_INPUT, IptablesInput(c)[2]);
      assert checks6[0] == (INPUT, JumpTo(c.iface, HUB_INPUT6)) && checks6[1] == (FORWARD, DropForward6(c));
      assert checks6[2] == (HUB_INPUT6, Ip6tablesInput(c.iface)[0]) && checks6[3] == (HUB_INPUT6, Ip6tablesInput(c.iface)[1]);
    }
  }

  ghost predicate Holds(chains: Chains, chain: string, rules: seq<Rule>) {
    chain in chains && forall r :: r in rules ==> r in chains[chain]
  }

  ghost predicate AllPresent(c: Context, chains4: Chains, chains6: Chains) {
    && Holds(chains4, INPUT, [JumpTo(c.iface, HUB_INPUT)]) && Holds(chains4, HUB_INPUT, IptablesInput(c))
    && Holds(chains4, FORWARD, [JumpTo(c.iface, HUB_FORWARD)]) && Holds(chains4, HUB_FORWARD, [Rule([], Drop)])
    && Holds(chains6, INPUT, [JumpTo(c.iface, HUB_INPUT6)]) && Holds(chains6, HUB_INPUT6, Ip6tablesInput(c.iface))
    && Holds(chains6, FORWARD, [DropForward6(c)])
  }

  /** What an installation leaves behind always passes the verification that follows it. */
  lemma InstallationVerifies(c: Context, old4: Chains, old6: Chains)
    requires HasBuiltins(old4) && HasBuiltins(old6)
    ensures AllPresent(c, Installed4(c, old4), Installed6(c, old6))
  {
  }

  /** The nftables ruleset as far as the Hub touches it: its own table, if there is one. */
  class NftRuleset {
    var hubTable: map<string, seq<Rule>>
    var hubTableExists: bool

    constructor (table: map<string, seq<Rule>>, present: bool)
      ensures hubTable == table && hubTableExists == present
    {
      hubTable, hubTableExists := table, present;
    }

    method DeleteTable() returns (ok: bool)
      modifies this
      ensures ok == old(hubTableExists) && !hubTableExists && hubTable == map[]
    {
      ok := hubTableExists;
      hubTable, hubTableExists := map[], false;
    }

    method AddTable() returns (ok: bool)
      modifies this
      ensures ok && hubTableExists
      ensures hubTable == if old(hubTableExists) then old(hubTable) else map[]
    {
      if !hubTableExists {
        hubTable := map[];
      }
      hubTableExists := true;
      ok := true;
    }

    method AddChain(chain: string) returns (ok: bool)
      modifies this
      ensures ok == old(hubTableExists) && hubTableExists == old(hubTableExists)
      ensures hubTable == if ok && chain !in old(hubTable) then old(hubTable)[chain := []] else old(hubTable)
    {
      ok := hubTableExists;
      if ok && chain !in hubTable {
        hubTable := hubTable[chain := []];
      }
    }

    method AddRule(chain: string, rule: Rule) returns (ok: bool)
      modifies this
      ensures ok == (old(hubTableExists) && chain in old(hubTable)) && hubTableExists == old(hubTableExists)
      ensures hubTable == if ok then old(hubTable)[chain := old(hubTable)[chain] + [rule]] else old(hubTable)
    {
      ok := hubTableExists && chain in hubTable;
      if ok {
        hubTable := hubTable[chain := hubTable[chain] + [rule]];
      }
    }
  }

  /** `install_nftables_rules`: an older table of the Hub is replaced, not added to. */
  method InstallNftables(nft: NftRuleset, settings: Settings) returns (ok: bool)
    modifies nft
    ensures ok <==>
      && settings.cidr.Some? && settings.cidr.value.family == V4 && settings.hubAddress.Some? && settings.hubAddress.value.family == V4
      && InNetwork(settings.hubAddress.value.value, settings.cidr.value.value, settings.cidr.value.prefix) && 1 <= settings.controlPort <= 65535
    ensures match NftablesAfter(settings)
      case None => !ok && nft.hubTable == old(nft.hubTable) && nft.hubTableExists == old(nft.hubTableExists)
      case Some(table) => ok && nft.hubTableExists && nft.hubTable == table
  {
    var context := RuleContext(settings);
    if context.Err? {
      return false;
    }
    if nft.hubTableExists {
      ok := nft.DeleteTable();
    }
    ok := nft.AddTable();
    var filled := FillTable(nft, context.value);
    ok := ok && filled;
  }

  method FillTable(nft: NftRuleset, c: Context) returns (ok: bool)
    requires nft.hubTableExists && nft.hubTable == map[]
    modifies nft
    ensures ok && nft.hubTableExists && nft.hubTable == NftTable(c)
  {
    ok := nft.AddChain("input");
    ok := nft.AddChain("forward");
    var done := AddRules(nft, "input", NftInput(c));
    var done' := AddRules(nft, "forward", NftForward(c));
    ok := ok && done && done';
    assert nft.hubTable == NftTable(c);
  }

  /** Add a list of rules to an empty chain, one command each. */
  method AddRules(nft: NftRuleset, chain: string, rules: seq<Rule>) returns (ok: bool)
    requires nft.hubTableExists && chain in nft.hubTable && nft.hubTable[chain] == []
    modifies nft
    ensures ok && nft.hubTableExists && nft.hubTable == old(nft.hubTable)[chain := rules]
  {
    ok := true;
    assert rules[..0] == [] && nft.hubTable == nft.hubTable[chain := []];
    for i := 0 to |rules|
      invariant ok && nft.hubTableExists && nft.hubTable == old(nft.hubTable)[chain := rules[..i]]
    {
      ok := nft.AddRule(chain, rules[i]);
      assert rules[..i+1] == rules[..i] + [rules[i]];
    }
    assert rules[..|rules|] == rules;
  }
}
