/**
 The editing code of `connect.py`, function by function, on a document that is changed in place.
 Each method is proved to do what `ConfigSpec` says; a `changed` that stays false means that the
 document was left alone, so not writing it back loses nothing.
 */
module ConfigEditor {
  import opened Lists
  import opened Options
  import opened ConfigSpec
  import opened ConfigRules
  import opened ConfigListen
  import opened ConfigIntegration
  import Text

  method SetChildText(parent: Elem, tag: Tag, value: string) returns (edited: Elem, changed: bool)
    ensures edited.text == parent.text
    ensures forall t :: Child(edited, t) == if t == tag then Some(FindOrCreate(parent, tag).(text := value)) else Child(parent, t)
    ensures changed <==> edited != parent
  {
    var child := FindOrCreate(parent, tag);
    changed := tag !in parent.kids || child.text != value;
    edited := parent.(kids := parent.kids[tag := child.(text := value)]);
    assert !changed ==> edited.kids == parent.kids;
    assert changed ==> Child(edited, tag) != Child(parent, tag);
  }

  method RemoveChild(parent: Elem, tag: Tag) returns (edited: Elem, changed: bool)
    ensures edited.text == parent.text
    ensures forall t :: Child(edited, t) == if t == tag then None else Child(parent, t)
    ensures changed <==> edited != parent
  {
    changed := tag in parent.kids;
    edited := parent.(kids := parent.kids - {tag});
    assert !changed ==> edited.kids == parent.kids;
  }

  /** Put an edited child back under its parent. */
  method Replace(parent: Elem, tag: Tag, child: Elem) returns (edited: Elem)
    ensures edited.text == parent.text
    ensures forall t :: Child(edited, t) == if t == tag then Some(child) else Child(parent, t)
    ensures Child(parent, tag) == Some(child) ==> edited == parent
  {
    edited := parent.(kids := parent.kids[tag := child]);
    assert Child(parent, tag) == Some(child) ==> edited.kids == parent.kids;
  }

  /** One child of an edited element: as it is meant to be, or as it was. */
  predicate ChildIs(r: Elem, t: Tag, isEdited: bool, meant: Option<Elem>, was: Option<Elem>) {
    Child(r, t) == if isEdited then meant else was
  }

  predicate IsName(t: Tag) { t == Enable || t == If || t == Descr }
  predicate IsAddress(t: Tag) { t == IpAddr || t == Subnet || t == IpAddrV6 || t == Type }
  predicate IsHead(t: Tag) { t == Type || t == Interface || t == IpProtocol || t == Direction }
  predicate IsMiddle(t: Tag) { t == Quick || t == StateType || t == Protocol || t == Floating }
  predicate IsTail(t: Tag) { t == Source || t == Destination || t == Descr }

  method NameAssigned(e: Elem, payload: Payload) returns (r: Elem, changed: bool)
    ensures forall t :: ChildIs(r, t, IsName(t), InterfaceChild(e, payload, t), Child(e, t))
    ensures r.text == e.text && (!changed ==> r == e)
  {
    var c: bool;
    r, changed := SetChildText(e, Enable, "1");
    r, c := SetChildText(r, If, WG_IFACE);
    changed := changed || c;
    r, c := SetChildText(r, Descr, ASSIGNED_IF_DESCR);
    changed := changed || c;
  }

  method AddressAssigned(e: Elem, payload: Payload) returns (r: Elem, changed: bool)
    ensures forall t :: ChildIs(r, t, IsAddress(t), InterfaceChild(e, payload, t), Child(e, t))
    ensures r.text == e.text && (!changed ==> r == e)
  {
    var c: bool;
    r, changed := SetChildText(e, IpAddr, payload.firewallIp);
    r, c := SetChildText(r, Subnet, payload.prefix);
    changed := changed || c;
    r, c := SetChildText(r, IpAddrV6, "none");
    changed := changed || c;
    r, c := RemoveChild(r, Type);
    changed := changed || c;
  }

  method ConfigureAssigned(e: Elem, payload: Payload) returns (r: Elem, changed: bool)
    ensures r == ConfigureInterface(e, payload) && (!changed ==> r == e)
  {
    var c: bool;
    r, changed := NameAssigned(e, payload);
    ghost var named := r;
    r, c := AddressAssigned(r, payload);
    changed := changed || c;
    forall tag ensures Child(r, tag) == Child(ConfigureInterface(e, payload), tag) {
      InterfaceIs(e, payload, tag);
      assert ChildIs(named, tag, IsName(tag), InterfaceChild(e, payload, tag), Child(e, tag));
      assert ChildIs(r, tag, IsAddress(tag), InterfaceChild(named, payload, tag), Child(named, tag));
    }
    SameElem(r, ConfigureInterface(e, payload));
  }

  method EditSource(e: Elem, args: RuleArgs) returns (r: Elem, changed: bool)
    ensures r == ConfigureSource(e, args) && (!changed ==> r == e)
  {
    r, changed := SetChildText(e, Address, args.source);
    forall tag ensures Child(r, tag) == Child(ConfigureSource(e, args), tag) {
      SourceChild(e, args, tag);
    }
    SameElem(r, ConfigureSource(e, args));
  }

  method EditDestination(e: Elem, args: RuleArgs) returns (r: Elem, changed: bool)
    ensures r == ConfigureDestination(e, args) && (!changed ==> r == e)
  {
    var c: bool;
    r, changed := RemoveChild(e, Network);
    r, c := SetChildText(r, Address, args.destination);
    changed := changed || c;
    r, c := SetChildText(r, Port, args.port);
    changed := changed || c;
    forall tag ensures Child(r, tag) == Child(ConfigureDestination(e, args), tag) {
      DestinationIs(e, args, tag);
    }
    SameElem(r, ConfigureDestination(e, args));
  }

  method EditHead(rule: Elem, args: RuleArgs, ghost descr: string, ghost floating: bool) returns (r: Elem, changed: bool)
    ensures forall t :: ChildIs(r, t, IsHead(t), RuleChild(rule, args, descr, floating, t), Child(rule, t))
    ensures r.text == rule.text && (!changed ==> r == rule)
  {
    var c: bool;
    r, changed := SetChildText(rule, Type, "pass");
    r, c := SetChildText(r, Interface, args.key);
    changed := changed || c;
    r, c := SetChildText(r, IpProtocol, "inet");
    changed := changed || c;
    r, c := SetChildText(r, Direction, "in");
    changed := changed || c;
  }

  method EditMiddle(rule: Elem, ghost args: RuleArgs, ghost descr: string, floating: bool) returns (r: Elem, changed: bool)
    ensures forall t :: ChildIs(r, t, IsMiddle(t), RuleChild(rule, args, descr, floating, t), Child(rule, t))
    ensures r.text == rule.text && (!changed ==> r == rule)
  {
    var c: bool;
    r, changed := SetChildText(rule, Quick, "1");
    r, c := SetChildText(r, StateType, "keep state");
    changed := changed || c;
    r, c := SetChildText(r, Protocol, "tcp");
    changed := changed || c;
    if floating {
      r, c := SetChildText(r, Floating, "yes");
    } else {
      r, c := RemoveChild(r, Floating);
    }
    changed := changed || c;
  }

  /** `find_or_create`, then the edits of the source and of the destination. */
  method EditEnds(rule: Elem, args: RuleArgs) returns (r: Elem, changed: bool)
    ensures r.text == rule.text && (!changed ==> r == rule)
    ensures forall t :: ChildIs(r, t, t == Source,
      Some(ConfigureSource(FindOrCreate(rule, t), args)),
      if t == Destination then Some(ConfigureDestination(FindOrCreate(rule, t), args)) else Child(rule, t))
  {
    var source, destination: Elem;
    var c: bool;
    source, changed := EditSource(FindOrCreate(rule, Source), args);
    SourceChild(FindOrCreate(rule, Source), args, Address);
    r := Replace(rule, Source, source);
    destination, c := EditDestination(FindOrCreate(r, Destination), args);
    DestinationIs(FindOrCreate(r, Destination), args, Address);
    changed := changed || c;
    r := Replace(r, Destination, destination);
  }

  method EditTail(rule: Elem, args: RuleArgs, descr: string, ghost floating: bool) returns (r: Elem, changed: bool)
    ensures forall t :: ChildIs(r, t, IsTail(t), RuleChild(rule, args, descr, floating, t), Child(rule, t))
    ensures r.text == rule.text && (!changed ==> r == rule)
  {
    var c: bool;
    r, changed := EditEnds(rule, args);
    ghost var ends := r;
    r, c := SetChildText(r, Descr, descr);
    changed := changed || c;
    forall t ensures ChildIs(r, t, IsTail(t), RuleChild(rule, args, descr, floating, t), Child(rule, t)) {
      assert ChildIs(ends, t, t == Source,
          Some(ConfigureSource(FindOrCreate(rule, t), args)),
          if t == Destination then Some(ConfigureDestination(FindOrCreate(rule, t), args)) else Child(rule, t));
    }
  }

  method ConfigureFirewallRule(rule: Elem, args: RuleArgs, descr: string, floating: bool) returns (r: Elem, changed: bool)
    ensures r == ConfigureRule(rule, args, descr, floating) && (!changed ==> r == rule)
  {
    var c: bool;
    r, changed := EditHead(rule, args, descr, floating);
    ghost var head := r;
    r, c := EditMiddle(r, args, descr, floating);
    changed := changed || c;
    ghost var middle := r;
    r, c := EditTail(r, args, descr, floating);
    changed := changed || c;
    EditedAll(rule, head, middle, r, args, descr, floating);
  }

  lemma EditedChild(rule: Elem, head: Elem, middle: Elem, r: Elem, args: RuleArgs, descr: string, floating: bool, tag: Tag)
    requires ChildIs(head, tag, IsHead(tag), RuleChild(rule, args, descr, floating, tag), Child(rule, tag))
    requires ChildIs(middle, tag, IsMiddle(tag), RuleChild(head, args, descr, floating, tag), Child(head, tag))
    requires ChildIs(r, tag, IsTail(tag), RuleChild(middle, args, descr, floating, tag), Child(middle, tag))
    ensures Child(r, tag) == RuleChild(rule, args, descr, floating, tag)
  {
  }

  lemma EditedAll(rule: Elem, head: Elem, middle: Elem, r: Elem, args: RuleArgs, descr: string, floating: bool)
    requires rule.text == r.text
    requires forall t :: ChildIs(head, t, IsHead(t), RuleChild(rule, args, descr, floating, t), Child(rule, t))
    requires forall t :: ChildIs(middle, t, IsMiddle(t), RuleChild(head, args, descr, floating, t), Child(head, t))
    requires forall t :: ChildIs(r, t, IsTail(t), RuleChild(middle, args, descr, floating, t), Child(middle, t))
    ensures r == ConfigureRule(rule, args, descr, floating)
  {
    forall tag ensures Child(r, tag) == Child(ConfigureRule(rule, args, descr, floating), tag) {
      ConfiguredChild(rule, args, descr, floating, tag);
      EditedChild(rule, head, middle, r, args, descr, floating, tag);
    }
    SameElem(r, ConfigureRule(rule, args, descr, floating));
  }

  // ---------- The document ----------

  lemma ListenNext(nodes: seq<Listen>, i: nat)
    requires i < |nodes|
    ensures ListenValues(nodes[..i+1]) == ListenValues(nodes[..i]) + NodeValues(nodes[i])
  {
    var before, upTo, node := nodes[..i], nodes[..i+1], nodes[i];
    assert upTo == before + [node];
    ListenAppend(before, node);
  }

  // One more element of each of the removing loops.

  lemma KeptNext(rules: seq<Elem>, i: nat, kept: seq<Elem>)
    requires i < |rules|
    ensures kept + RemoveRules(rules[i..]) == (if HasOurDescr(rules[i]) then kept else kept + [rules[i]]) + RemoveRules(rules[i+1..])
  {
    var rest := RemoveRules(rules[i+1..]);
    assert rules[i..][0] == rules[i] && rules[i..][1..] == rules[i+1..];
    assert kept + ([rules[i]] + rest) == kept + [rules[i]] + rest;
  }

  lemma ItemsNext(items: seq<string>, key: string, i: nat, kept: seq<string>)
    requires i < |items|
    ensures kept + DropItems(items[i..], key) == (if Text.Strip(items[i]) == key then kept else kept + [items[i]]) + DropItems(items[i+1..], key)
  {
    var rest := DropItems(items[i+1..], key);
    assert items[i..][0] == items[i] && items[i..][1..] == items[i+1..];
    assert kept + ([items[i]] + rest) == kept + [items[i]] + rest;
  }

  lemma NodesNext(nodes: seq<Listen>, key: string, i: nat, kept: seq<Listen>)
    requires i < |nodes|
    ensures kept + RemoveListen(nodes[i..], key) ==
      (match RemoveFromNode(nodes[i], key) case None => kept case Some(node) => kept + [node]) + RemoveListen(nodes[i+1..], key)
  {
    var rest := RemoveListen(nodes[i+1..], key);
    assert nodes[i..][0] == nodes[i] && nodes[i..][1..] == nodes[i+1..];
    match RemoveFromNode(nodes[i], key)
    case None =>
    case Some(node) => assert kept + ([node] + rest) == kept + [node] + rest;
  }

  lemma FreshIsNowhere(list: seq<Assigned>, key: string)
    requires key !in Tags(list)
    ensures First(list, (child: Assigned) => child.tag == key) == |list|
  {
    assert forall k :: 0 <= k < |list| ==> list[k].tag in Tags(list);
    FirstIs(list, (child: Assigned) => child.tag == key, |list|);
  }

  class Document {
    var interfaces: Option<seq<Assigned>>
    var filter: Option<seq<Elem>>
    var webgui: Option<Webgui>

    constructor (c: Config)
      ensures View() == c
    {
      interfaces, filter, webgui := c.interfaces, c.filter, c.webgui;
    }

    function View(): Config
      reads this
    {
      Config(interfaces, filter, webgui)
    }

    /** The first of the interfaces that is ours. */
    static method FindOurs(list: seq<Assigned>) returns (i: nat)
      ensures i == First(list, IsOurs)
    {
      i := 0;
      while i < |list| && !IsOurs(list[i])
        invariant i <= |list| && forall k :: 0 <= k < i ==> !IsOurs(list[k])
      {
        i := i + 1;
      }
      FirstIs(list, IsOurs, i);
    }

    static method FindTag(list: seq<Assigned>, key: string) returns (i: nat)
      ensures i == First(list, (child: Assigned) => child.tag == key)
    {
      i := 0;
      while i < |list| && list[i].tag != key
        invariant i <= |list| && forall k :: 0 <= k < i ==> list[k].tag != key
      {
        i := i + 1;
      }
      FirstIs(list, (child: Assigned) => child.tag == key, i);
    }

    /** Try `opt1`, `opt2`, ... until one is not in use. */
    static method FreshKey(used: set<string>) returns (key: string)
      ensures key == OptKey(FreshIndex(used, 0))
    {
      var index := 1;
      while OptKey(index) in used
        invariant 1 <= index && (forall m: nat :: 1 <= m < index ==> OptKey(m) in used)
        invariant FreshIndex(used, index - 1) == FreshIndex(used, 0)
        decreases |used| + 1 - index
      {
        TriedFits(used, index);
        index := index + 1;
      }
      key := OptKey(index);
    }

    method EnsureAssignedInterface(payload: Payload) returns (key: string, changed: bool)
      modifies this
      ensures key == AssignedKey(Interfaces(old(View())))
      ensures View() == old(View()).(interfaces := Some(EnsureAssigned(Interfaces(old(View())), payload)))
      ensures !changed ==> View() == old(View())
    {
      var list := if interfaces.Some? then interfaces.value else [];
      var i := FindOurs(list);
      var e: Elem;
      if i == |list| {
        key := FreshKey(Tags(list));
        FreshIsNowhere(list, key);
        e, changed := ConfigureAssigned(EMPTY, payload);
        interfaces := Some(list + [Assigned(key, e)]);
        changed := true;
      } else {
        key := list[i].tag;
        var k := FindTag(list, key);
        e, changed := ConfigureAssigned(list[k].elem, payload);
        interfaces := Some(list[k := Assigned(key, e)]);
        assert !changed ==> list[k := Assigned(key, e)] == list;
      }
    }

    method EnsureFirewallRule(args: RuleArgs, descr: string, floating: bool, now: string) returns (changed: bool)
      modifies this
      ensures View() == old(View()).(filter := Some(EnsureRule(Rules(old(View())), args, descr, floating, now)))
      ensures !changed ==> View() == old(View())
    {
      var rules := if filter.Some? then filter.value else [];
      var r: Elem;
      for i := 0 to |rules|
        invariant forall k :: 0 <= k < i ==> !RuleMatches(rules[k], args, descr)
        invariant View() == old(View())
      {
        if RuleMatches(rules[i], args, descr) {
          FirstIs(rules, rule => RuleMatches(rule, args, descr), i);
          r, changed := ConfigureFirewallRule(rules[i], args, descr, floating);
          filter := Some(rules[i := r]);
          assert !changed ==> rules[i := r] == rules;
          return;
        }
      }
      FirstIs(rules, rule => RuleMatches(rule, args, descr), |rules|);
      r, changed := ConfigureFirewallRule(EMPTY, args, descr, floating);
      r := r.(kids := r.kids[Created := CreatedBy(now)]);
      filter := Some(rules + [r]);
      changed := true;
    }

    static method CollectListenValues(nodes: seq<Listen>) returns (values: seq<string>)
      ensures values == ListenValues(nodes)
    {
      values := [];
      for i := 0 to |nodes|
        invariant Filled(values) == ListenValues(nodes[..i])
      {
        var node := nodes[i];
        var more := StripAll(if node.items != [] then node.items else Text.Split(node.text, ','));
        FilledAppend(values, more);
        ListenNext(nodes, i);
        values := values + more;
      }
      assert nodes[..|nodes|] == nodes;
      values := Filled(values);
    }

    method EnsureListenInterface(key: string) returns (changed: bool)
      modifies this
      ensures View() == old(View()).(webgui := WithListen(old(webgui), AddListen(ListenNodes(old(View())), key)))
      ensures !changed ==> View() == old(View())
    {
      if webgui.None? {
        return false;
      }
      var nodes := webgui.value.listen;
      var values := CollectListenValues(nodes);
      if values == [] || key in values {
        return false;
      }
      var first := nodes[0];
      if first.items != [] {
        nodes := nodes[0 := first.(items := first.items + [key])];
      } else if |nodes| == 1 && ',' in first.text {
        nodes := [first.(text := Text.Join(values + [key], ','))];
      } else {
        nodes := nodes + [Listen(key, [])];
      }
      webgui := Some(webgui.value.(listen := nodes));
      changed := true;
    }

    method RemoveMatchingRules() returns (changed: bool)
      modifies this
      ensures View() == old(View()).(filter := if old(filter).None? then None else Some(RemoveRules(Rules(old(View())))))
      ensures !changed ==> View() == old(View())
    {
      if filter.None? {
        return false;
      }
      var rules := filter.value;
      var kept := [];
      changed := false;
      for i := 0 to |rules|
        invariant View() == old(View())
        invariant kept + RemoveRules(rules[i..]) == RemoveRules(rules)
        invariant !changed ==> kept == rules[..i]
      {
        KeptNext(rules, i, kept);
        if HasOurDescr(rules[i]) {
          changed := true;
        } else {
          kept := kept + [rules[i]];
        }
      }
      assert kept + [] == kept && rules[..|rules|] == rules;
      filter := Some(kept);
    }

    static method DropKeyItems(items: seq<string>, key: string) returns (kept: seq<string>, changed: bool)
      ensures kept == DropItems(items, key) && (!changed ==> kept == items)
    {
      kept, changed := [], false;
      for i := 0 to |items|
        invariant kept + DropItems(items[i..], key) == DropItems(items, key)
        invariant !changed ==> kept == items[..i]
      {
        ItemsNext(items, key, i, kept);
        if Text.Strip(items[i]) == key {
          changed := true;
        } else {
          kept := kept + [items[i]];
        }
      }
      assert kept + [] == kept && items[..|items|] == items;
    }

    /** What becomes of one listen node. */
    static method RemoveKeyFrom(node: Listen, key: string) returns (kept: Option<Listen>, changed: bool)
      ensures kept == RemoveFromNode(node, key) && (!changed ==> kept == Some(node))
    {
      if node.items != [] {
        var items;
        items, changed := DropKeyItems(node.items, key);
        if items == [] && Text.Strip(node.text) == "" {
          return None, true;
        }
        return Some(node.(items := items)), changed;
      }
      var values := NodeValues(node);
      if key !in values {
        return Some(node), false;
      }
      values := Without(values, key);
      return if values != [] then Some(node.(text := Text.Join(values, ','))) else None, true;
    }

    method RemoveListenInterface(key: string) returns (changed: bool)
      modifies this
      ensures View() == old(View()).(webgui := if key == "" then old(webgui) else WithListen(old(webgui), RemoveListen(ListenNodes(old(View())), key)))
      ensures !changed ==> View() == old(View())
    {
      if webgui.None? || key == "" {
        return false;
      }
      var nodes := webgui.value.listen;
      var kept := [];
      changed := false;
      for i := 0 to |nodes|
        invariant View() == old(View())
        invariant kept + RemoveListen(nodes[i..], key) == RemoveListen(nodes, key)
        invariant !changed ==> kept == nodes[..i]
      {
        NodesNext(nodes, key, i, kept);
        var node, c := RemoveKeyFrom(nodes[i], key);
        changed := changed || c;
        if node.Some? {
          kept := kept + [node.value];
        }
      }
      assert kept + [] == kept && nodes[..|nodes|] == nodes;
      webgui := Some(webgui.value.(listen := kept));
    }

    method RemoveAssignedInterface() returns (key: Option<string>, changed: bool)
      modifies this
      ensures View() == old(View()).(interfaces := if old(interfaces).None? then None else Some(RemoveAssigned(Interfaces(old(View())))))
      ensures !changed ==> View() == old(View())
    {
      if interfaces.None? {
        return None, false;
      }
      var list := interfaces.value;
      var i := FindOurs(list);
      if i == |list| {
        return None, false;
      }
      interfaces := Some(list[..i] + list[i+1..]);
      return Some(list[i].tag), true;
    }

    /** `cleanup_opnsense_integration`; the document is written back when it changed. */
    method CleanUp() returns (changed: bool)
      modifies this
      ensures View() == Cleanup(old(View()))
      ensures !changed ==> View() == old(View())
    {
      var c: bool;
      var list := if interfaces.Some? then interfaces.value else [];
      var i := FindOurs(list);
      changed := false;
      ghost var was := View();
      assert list == Interfaces(was);
      if i < |list| && list[i].tag != "" {
        changed := RemoveListenInterface(list[i].tag);
      }
      assert View() == was.(webgui := Cleanup(was).webgui);
      c := RemoveMatchingRules();
      changed := changed || c;
      assert View() == was.(webgui := Cleanup(was).webgui, filter := Cleanup(was).filter);
      var _, removed := RemoveAssignedInterface();
      changed := changed || removed;
    }

    method EnsureBothRules(args: RuleArgs, now: string) returns (changed: bool)
      modifies this
      ensures View() == old(View()).(filter := Some(EnsureRules(Rules(old(View())), args, now)))
      ensures !changed ==> View() == old(View())
    {
      changed := EnsureFirewallRule(args, RULE_DESCR, false, now);
      var c := EnsureFirewallRule(args, FLOATING_RULE_DESCR, true, now);
      changed := changed || c;
    }

    /** `ensure_opnsense_integration`, with the Hub's addresses already parsed. */
    method EnsureIntegration(payload: Payload, now: string) returns (key: string, changed: bool)
      modifies this
      ensures View() == Integrate(old(View()), payload, now) && key == AssignedKey(Interfaces(old(View())))
      ensures TunnelIsCarried(Interfaces(View()), payload, key) && HubIsLetIn(Rules(View()), payload, key, old(webgui))
      ensures !changed ==> View() == old(View())
    {
      ghost var was := View();
      var c: bool;
      key, changed := EnsureAssignedInterface(payload);
      var args := RuleArgs(key, payload.hubIp + "/32", payload.firewallIp + "/32", WebguiPort(webgui));
      assert args == ArgsFor(was, payload);
      c := EnsureBothRules(args, now);
      changed := changed || c;
      c := EnsureListenInterface(key);
      changed := changed || c;
      assert View() == Integrate(was, payload, now);
      IntegrationLetsTheHubIn(was, payload, now);
    }
  }
}
