/**
 What the plugin's integration and its cleanup do to a whole `config.xml`: integrating twice is
 integrating once, cleanup undoes an integration, and a fresh configuration gets one rule.
 */
module ConfigIntegration {
  import opened Lists
  import opened Options
  import opened ConfigSpec
  import opened ConfigRules
  import opened ConfigListen
  import Text

  // ---------- The assigned interface ----------

  lemma InterfaceIs(e: Elem, payload: Payload, tag: Tag)
    ensures Child(ConfigureInterface(e, payload), tag) == InterfaceChild(e, payload, tag)
  {
  }

  lemma ConfiguredInterface(e: Elem, payload: Payload)
    ensures ConfigureInterface(ConfigureInterface(e, payload), payload) == ConfigureInterface(e, payload)
    ensures FindText(ConfigureInterface(e, payload), If) == Some(WG_IFACE)
  {
    var once := ConfigureInterface(e, payload);
    forall tag ensures Child(ConfigureInterface(once, payload), tag) == Child(once, tag) {
      InterfaceIs(e, payload, tag);
      InterfaceIs(once, payload, tag);
    }
    SameElem(ConfigureInterface(once, payload), once);
    InterfaceIs(e, payload, If);
  }

  /** What the assigned interface says, and that the children it does not name stay. */
  lemma InterfaceTexts(e: Elem, payload: Payload, tag: Tag)
    ensures var r := ConfigureInterface(e, payload);
      && FindText(r, Enable) == Some("1") && FindText(r, Descr) == Some(ASSIGNED_IF_DESCR)
      && FindText(r, IpAddr) == Some(payload.firewallIp) && FindText(r, Subnet) == Some(payload.prefix) && FindText(r, IpAddrV6) == Some("none")
      && FindText(r, Type) == None
      && (tag !in INTERFACE_TAGS && tag != Type ==> Child(r, tag) == Child(e, tag))
  {
    InterfaceIs(e, payload, Enable);
    InterfaceIs(e, payload, Descr);
    InterfaceIs(e, payload, IpAddr);
    InterfaceIs(e, payload, Subnet);
    InterfaceIs(e, payload, IpAddrV6);
    InterfaceIs(e, payload, Type);
    InterfaceIs(e, payload, tag);
  }

  predicate HasOurs(list: seq<Assigned>) {
    First(list, IsOurs) < |list|
  }

  /** Where the integration puts its interface. */
  function Slot(list: seq<Assigned>): (i: nat)
    ensures i <= |list| && (i == |list| <==> !HasOurs(list))
    ensures forall k :: 0 <= k < i ==> !IsOurs(list[k]) && list[k].tag != AssignedKey(list)
  {
    var key := AssignedKey(list);
    var i := First(list, (child: Assigned) => child.tag == key);
    assert i < |list| ==> list[i].tag in Tags(list);
    i
  }

  lemma EnsuredAt(list: seq<Assigned>, payload: Payload)
    ensures var i := Slot(list); var r := EnsureAssigned(list, payload);
      && i < |r| && r[i].tag == AssignedKey(list) && FindText(r[i].elem, If) == Some(WG_IFACE)
      && r == (if i < |list| then list[i := r[i]] else list + [r[i]])
      && r[i].elem == ConfigureInterface(if i < |list| then list[i].elem else EMPTY, payload)
  {
    var i := Slot(list);
    ConfiguredInterface(if i < |list| then list[i].elem else EMPTY, payload);
  }

  /** After an integration the first of our interfaces is the one it configured. */
  lemma FoundAgain(list: seq<Assigned>, payload: Payload)
    ensures var r := EnsureAssigned(list, payload);
      First(r, IsOurs) == Slot(list) == Slot(r) < |r| && AssignedKey(r) == AssignedKey(list)
  {
    var i, r := Slot(list), EnsureAssigned(list, payload);
    EnsuredAt(list, payload);
    assert forall k :: 0 <= k < i ==> r[k] == list[k];
    FirstIs(r, IsOurs, i);
    FirstIs(r, (child: Assigned) => child.tag == AssignedKey(list), i);
  }

  /** The first interface with the tunnel's device or the Hub's description is taken over; when there is
      none, one is appended under the least `optN` that no interface has. */
  lemma FirstOfOursIsTaken(list: seq<Assigned>, payload: Payload, i: nat)
    requires i <= |list|
    requires forall k :: 0 <= k < i ==> FindText(list[k].elem, If) != Some(WG_IFACE) && FindText(list[k].elem, Descr) != Some(ASSIGNED_IF_DESCR)
    requires i < |list| ==> FindText(list[i].elem, If) == Some(WG_IFACE) || FindText(list[i].elem, Descr) == Some(ASSIGNED_IF_DESCR)
    ensures var key, r := AssignedKey(list), EnsureAssigned(list, payload);
      if i < |list| then key == list[i].tag && |r| == |list| && forall k :: 0 <= k < |list| && list[k].tag != key ==> r[k] == list[k]
      else
        && |r| == |list| + 1 && r[..|list|] == list && r[|list|].tag == key && (forall k :: 0 <= k < |list| ==> list[k].tag != key)
        && exists n: nat :: n >= 1 && key == "opt" + Text.Show(n) && forall m: nat :: 1 <= m < n ==> OptKey(m) in Tags(list)
  {
    FirstIs(list, IsOurs, i);
    EnsuredAt(list, payload);
    if i == |list| {
      var n := FreshIndex(Tags(list), 0);
      assert AssignedKey(list) == "opt" + Text.Show(n);
      forall k | 0 <= k < |list| ensures list[k].tag != OptKey(n) {
        assert list[k].tag in Tags(list);
      }
    }
  }

  lemma EnsureAssignedTwice(list: seq<Assigned>, payload: Payload)
    ensures EnsureAssigned(EnsureAssigned(list, payload), payload) == EnsureAssigned(list, payload)
  {
    var i, r := Slot(list), EnsureAssigned(list, payload);
    EnsuredAt(list, payload);
    FoundAgain(list, payload);
    EnsuredAt(r, payload);
    ConfiguredInterface(if i < |list| then list[i].elem else EMPTY, payload);
    assert r[i := r[i]] == r;
  }

  lemma CleanupRestoresInterfaces(list: seq<Assigned>, payload: Payload)
    ensures RemoveAssigned(EnsureAssigned(list, payload)) == list <==> !HasOurs(list)
  {
    var i, r := Slot(list), EnsureAssigned(list, payload);
    EnsuredAt(list, payload);
    FoundAgain(list, payload);
    if HasOurs(list) {
      assert |RemoveAssigned(r)| == |list| - 1;
    } else {
      assert r[..i] + r[i+1..] == list;
    }
  }

  // ---------- Main results ----------

  /** Tags of interfaces are XML names. */
  ghost predicate TagsAreNames(c: Config) {
    forall i :: 0 <= i < |Interfaces(c)| ==> IsKey(Interfaces(c)[i].tag)
  }

  /** Some listen node names the key in its children and in its text. */
  ghost predicate BringsBack(c: Config, key: string) {
    exists i :: 0 <= i < |ListenNodes(c)| && Resurfaces(ListenNodes(c)[i], key)
  }

  lemma KeyIsKey(c: Config)
    requires TagsAreNames(c)
    ensures IsKey(AssignedKey(Interfaces(c)))
  {
    if !HasOurs(Interfaces(c)) {
      OptKeyIsKey(FreshIndex(Tags(Interfaces(c)), 0));
    }
  }

  lemma OptKeyIsKey(n: nat)
    ensures IsKey(OptKey(n))
  {
    assert forall i :: 0 <= i < |OptKey(n)| ==> OptKey(n)[i] == if i < 3 then "opt"[i] else Text.ShowNat(n)[i-3];
  }

  /** The port on which the WebGUI answers: the one that is set, else the default of its protocol. */
  predicate AnswersOn(webgui: Option<Webgui>, port: string) {
    var chosen := if webgui.Some? && webgui.value.port.Some? then Text.Strip(webgui.value.port.value) else "";
    var plain := webgui.Some? && webgui.value.protocol.Some? && Text.Lower(Text.Strip(webgui.value.protocol.value)) == "http";
    && (chosen != "" ==> port == chosen)
    && (chosen == "" && plain ==> port == "80")
    && (chosen == "" && !plain ==> port == "443")
  }

  /** A rule that passes TCP, arriving on the interface `key`, from the Hub's tunnel address to the WebGUI
      on the firewall's own. */
  predicate IsHubTraffic(rule: Elem, payload: Payload, key: string, webgui: Option<Webgui>) {
    && FindText(rule, Type) == Some("pass") && FindText(rule, Interface) == Some(key)
    && FindText(rule, IpProtocol) == Some("inet") && FindText(rule, Protocol) == Some("tcp")
    && FindText2(rule, Source, Address) == Some(payload.hubIp + "/32")
    && FindText2(rule, Destination, Address) == Some(payload.firewallIp + "/32")
    && FindText2(rule, Destination, Port).Some? && AnswersOn(webgui, FindText2(rule, Destination, Port).value)
  }

  /** The rule that an integration leaves: inbound, deciding at once, keeping state, on every interface list. */
  predicate LetsTheHubIn(rule: Elem, payload: Payload, key: string, webgui: Option<Webgui>) {
    && IsHubTraffic(rule, payload, key, webgui)
    && FindText(rule, Direction) == Some("in") && FindText(rule, Quick) == Some("1") && FindText(rule, StateType) == Some("keep state")
    && FindText(rule, Floating) == Some("yes") && FindText(rule, Descr) == Some(FLOATING_RULE_DESCR)
  }

  /** The interface that carries the Hub's tunnel, with the firewall's address on it. */
  predicate CarriesTheTunnel(child: Assigned, payload: Payload) {
    && FindText(child.elem, If) == Some(WG_IFACE) && FindText(child.elem, Descr) == Some(ASSIGNED_IF_DESCR)
    && FindText(child.elem, IpAddr) == Some(payload.firewallIp) && FindText(child.elem, Subnet) == Some(payload.prefix)
    && FindText(child.elem, Enable) == Some("1") && FindText(child.elem, Type) == None
  }

  ghost predicate HubIsLetIn(rules: seq<Elem>, payload: Payload, key: string, webgui: Option<Webgui>) {
    exists j :: 0 <= j < |rules| && LetsTheHubIn(rules[j], payload, key, webgui)
  }

  ghost predicate TunnelIsCarried(list: seq<Assigned>, payload: Payload, key: string) {
    exists i :: 0 <= i < |list| && list[i].tag == key && CarriesTheTunnel(list[i], payload)
  }

  lemma HttpIsNotHttps()
    ensures Text.Lower(Text.Strip("https")) != "http" && Text.Lower(Text.Strip("")) != "http"
  {
    assert Text.Strip("https") == "https";
    assert |Text.Lower("https")| == 5;
    assert Text.Strip("") == "" && |Text.Lower("")| == 0;
  }

  lemma PortAnswers(webgui: Option<Webgui>, port: string)
    ensures AnswersOn(webgui, port) <==> port == WebguiPort(webgui)
  {
    HttpIsNotHttps();
    assert Text.Strip("") == "";
  }

  lemma TrafficIsHubTraffic(rule: Elem, c: Config, payload: Payload)
    ensures SameTraffic(rule, ArgsFor(c, payload)) <==> IsHubTraffic(rule, payload, AssignedKey(Interfaces(c)), c.webgui)
  {
    if FindText2(rule, Destination, Port).Some? {
      PortAnswers(c.webgui, FindText2(rule, Destination, Port).value);
    }
  }

  /** What the integration takes for its own rule: one of its descriptions, or the very traffic. */
  predicate TakenForOurs(rule: Elem, payload: Payload, key: string, webgui: Option<Webgui>) {
    FindText(rule, Descr) == Some(RULE_DESCR) || FindText(rule, Descr) == Some(FLOATING_RULE_DESCR) || IsHubTraffic(rule, payload, key, webgui)
  }

  /** From `rules` to `once`: a rule more exactly when none had the plain description or was about the
      Hub's traffic, and every rule that is not taken for the Hub's as and where it was. */
  ghost predicate OnlyOursChange(rules: seq<Elem>, once: seq<Elem>, payload: Payload, key: string, webgui: Option<Webgui>) {
    && |once| == |rules| +
        (if exists k :: 0 <= k < |rules| && (FindText(rules[k], Descr) == Some(RULE_DESCR) || IsHubTraffic(rules[k], payload, key, webgui)) then 0 else 1)
    && forall k :: 0 <= k < |rules| && !TakenForOurs(rules[k], payload, key, webgui) ==> once[k] == rules[k]
  }

  lemma CarriedBy(c: Config, payload: Payload, now: string)
    ensures TunnelIsCarried(Interfaces(Integrate(c, payload, now)), payload, AssignedKey(Interfaces(c)))
  {
    var list, i := Interfaces(c), Slot(Interfaces(c));
    EnsuredAt(list, payload);
    var e := if i < |list| then list[i].elem else EMPTY;
    InterfaceTexts(e, payload, If);
    assert Interfaces(Integrate(c, payload, now)) == EnsureAssigned(list, payload);
    assert CarriesTheTunnel(EnsureAssigned(list, payload)[i], payload);
  }

  /** For every configuration: afterwards an interface carries the tunnel, a floating rule lets the Hub
      reach the WebGUI over it, and only rules taken for the Hub's changed. */
  lemma IntegrationLetsTheHubIn(c: Config, payload: Payload, now: string)
    ensures var once, key := Integrate(c, payload, now), AssignedKey(Interfaces(c));
      && TunnelIsCarried(Interfaces(once), payload, key)
      && HubIsLetIn(Rules(once), payload, key, c.webgui)
      && OnlyOursChange(Rules(c), Rules(once), payload, key, c.webgui)
  {
    CarriedBy(c, payload, now);
    LetIn(c, payload, now);
    OthersStay(c, payload, now);
  }

  lemma LetIn(c: Config, payload: Payload, now: string)
    ensures HubIsLetIn(Rules(Integrate(c, payload, now)), payload, AssignedKey(Interfaces(c)), c.webgui)
  {
    var args := ArgsFor(c, payload);
    var (j, rule) := Target(Rules(c), args, now);
    var last := ConfigureRule(rule, args, FLOATING_RULE_DESCR, true);
    EnsuredRules(Rules(c), args, now);
    LastLetsIn(c, payload, rule, last);
    assert Rules(Integrate(c, payload, now)) == EnsureRules(Rules(c), args, now);
    assert EnsureRules(Rules(c), args, now)[j] == last;
  }

  lemma LastLetsIn(c: Config, payload: Payload, rule: Elem, last: Elem)
    requires last == ConfigureRule(rule, ArgsFor(c, payload), FLOATING_RULE_DESCR, true)
    ensures LetsTheHubIn(last, payload, AssignedKey(Interfaces(c)), c.webgui)
  {
    Configured(rule, ArgsFor(c, payload), FLOATING_RULE_DESCR, true);
    ConfiguredInbound(rule, ArgsFor(c, payload), FLOATING_RULE_DESCR, true);
    TrafficIsHubTraffic(last, c, payload);
  }

  lemma OthersStay(c: Config, payload: Payload, now: string)
    ensures OnlyOursChange(Rules(c), Rules(Integrate(c, payload, now)), payload, AssignedKey(Interfaces(c)), c.webgui)
  {
    var rules, args := Rules(c), ArgsFor(c, payload);
    assert Rules(Integrate(c, payload, now)) == EnsureRules(rules, args, now);
    OtherRulesStay(rules, args, now);
    forall k | 0 <= k < |rules| ensures SameTraffic(rules[k], args) <==> IsHubTraffic(rules[k], payload, AssignedKey(Interfaces(c)), c.webgui) {
      TrafficIsHubTraffic(rules[k], c, payload);
    }
  }

  /** Only the listen nodes of the WebGUI's settings change. */
  lemma PortStays(rules: seq<Elem>, payload: Payload, key: string, before: Option<Webgui>, after: Option<Webgui>)
    requires after == WithListen(before, if after.Some? then after.value.listen else [])
    ensures HubIsLetIn(rules, payload, key, before) <==> HubIsLetIn(rules, payload, key, after)
  {
    forall j | 0 <= j < |rules| ensures LetsTheHubIn(rules[j], payload, key, before) <==> LetsTheHubIn(rules[j], payload, key, after) {
      if FindText2(rules[j], Destination, Port).Some? {
        PortAnswers(before, FindText2(rules[j], Destination, Port).value);
        PortAnswers(after, FindText2(rules[j], Destination, Port).value);
      }
    }
  }

  /** Integrating a second time with the same payload, at any later time, leaves the configuration
      that the first time left, exactly when the rule that the floating call takes over had no
      children inside `<floating>`. */
  lemma IntegrateTwice(c: Config, payload: Payload, now: string, later: string)
    requires TagsAreNames(c)
    ensures Integrate(Integrate(c, payload, now), payload, later) == Integrate(c, payload, now)
      <==> FloatingTargetIsLeaf(Rules(c), ArgsFor(c, payload))
    ensures HubIsLetIn(Rules(Integrate(Integrate(c, payload, now), payload, later)), payload, AssignedKey(Interfaces(c)), c.webgui)
  {
    var once := Integrate(c, payload, now);
    var key := AssignedKey(Interfaces(c));
    KeyIsKey(c);
    EnsureAssignedTwice(Interfaces(c), payload);
    FoundAgain(Interfaces(c), payload);
    assert ArgsFor(once, payload) == ArgsFor(c, payload);
    EnsureRulesTwice(Rules(c), ArgsFor(c, payload), now, later);
    AddTwice(ListenNodes(c), key);
    TwiceLetIn(c, once, payload, later);
  }

  lemma TwiceLetIn(c: Config, once: Config, payload: Payload, later: string)
    requires AssignedKey(Interfaces(once)) == AssignedKey(Interfaces(c))
    requires once.webgui == WithListen(c.webgui, if once.webgui.Some? then once.webgui.value.listen else [])
    ensures HubIsLetIn(Rules(Integrate(once, payload, later)), payload, AssignedKey(Interfaces(c)), c.webgui)
  {
    LetIn(once, payload, later);
    PortStays(Rules(Integrate(once, payload, later)), payload, AssignedKey(Interfaces(c)), c.webgui, once.webgui);
  }

  /** A rule with something inside `<floating>`, which the second run throws away. */
  const NESTED := Elem("", map[Descr := Elem(FLOATING_RULE_DESCR, map[]), Floating := Elem("yes", map[Other("note") := EMPTY])])

  lemma NestedFloatingIsLost(args: RuleArgs, now: string, later: string)
    ensures var once := EnsureRules([NESTED], args, now); EnsureRules(once, args, later) != once
  {
    assert !RuleMatches(NESTED, args, RULE_DESCR) by { assert |RULE_DESCR| != |FLOATING_RULE_DESCR|; }
    FirstIs([NESTED], Match(args, RULE_DESCR), 1);
    FirstIs([NESTED], Match(args, FLOATING_RULE_DESCR), 0);
    assert Other("note") in NESTED.kids[Floating].kids;
    EnsureRulesTwice([NESTED], args, now, later);
  }

  /** Cleanup after an integration gives back the interfaces, the rules and the listen values,
      each exactly when nothing of it was the Hub's before; a listen value that is brought back by
      the text under its children is the one thing that can seem untouched without being so. */
  lemma CleanupUndoesIntegration(c: Config, payload: Payload, now: string)
    requires TagsAreNames(c)
    ensures var key := AssignedKey(Interfaces(c)); var after := Cleanup(Integrate(c, payload, now));
      && (Interfaces(after) == Interfaces(c) <==> !HasOurs(Interfaces(c)))
      && (Rules(after) == Rules(c) <==> NoneOurs(Rules(c), ArgsFor(c, payload)))
      && (key !in ListenValues(ListenNodes(c)) ==> ListenValues(ListenNodes(after)) == ListenValues(ListenNodes(c)))
      && (ListenValues(ListenNodes(after)) == ListenValues(ListenNodes(c)) ==> key !in ListenValues(ListenNodes(c)) || BringsBack(c, key))
  {
    var key := AssignedKey(Interfaces(c));
    KeyIsKey(c);
    EnsuredAt(Interfaces(c), payload);
    FoundAgain(Interfaces(c), payload);
    CleanupRestoresInterfaces(Interfaces(c), payload);
    CleanupRestoresRules(Rules(c), ArgsFor(c, payload), now);
    CleanupRestoresListening(ListenNodes(c), key);
    var once := Integrate(c, payload, now);
    assert ListenNodes(once) == AddListen(ListenNodes(c), key);
  }

  /** Nothing in the configuration is the Hub's, and nothing refers to `key`. */
  ghost predicate Untouched(c: Config, key: string) {
    && !HasOurs(Interfaces(c))
    && (forall k :: 0 <= k < |Rules(c)| ==> !HasOurDescr(Rules(c)[k]) && FindText(Rules(c)[k], Interface) != Some(key))
    && key !in ListenValues(ListenNodes(c))
  }

  /** On such a configuration the integration takes the least unused `optN` and adds exactly one
      rule, a floating one; cleanup then gives everything back. */
  lemma IntegratingAFreshConfig(c: Config, payload: Payload, now: string)
    requires TagsAreNames(c) && Untouched(c, AssignedKey(Interfaces(c)))
    ensures var key := AssignedKey(Interfaces(c)); var once := Integrate(c, payload, now);
      && key == OptKey(FreshIndex(Tags(Interfaces(c)), 0))
      && |Rules(once)| == |Rules(c)| + 1 && Rules(once)[..|Rules(c)|] == Rules(c)
      && LetsTheHubIn(Rules(once)[|Rules(c)|], payload, key, c.webgui)
      && FindText2(Rules(once)[|Rules(c)|], Created, Time) == Some(now) && FindText2(Rules(once)[|Rules(c)|], Created, Username) == Some("OPNsense Hub")
      && TunnelIsCarried(Interfaces(once), payload, key)
    ensures var after := Cleanup(Integrate(c, payload, now));
      && Interfaces(after) == Interfaces(c) && Rules(after) == Rules(c)
      && ListenValues(ListenNodes(after)) == ListenValues(ListenNodes(c))
  {
    assert NoneOurs(Rules(c), ArgsFor(c, payload));
    OneFloatingRule(Rules(c), ArgsFor(c, payload), now);
    TrafficIsHubTraffic(Rules(Integrate(c, payload, now))[|Rules(c)|], c, payload);
    CarriedBy(c, payload, now);
    CleanupUndoesIntegration(c, payload, now);
  }
}
