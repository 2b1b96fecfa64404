/**
 What the OPNsense plugin's `connect.py` reads and changes in `config.xml`, as values, and its
 edits as functions. The lists that the code walks (interfaces, rules, WebGUI listen nodes) keep
 their order; the children of one interface or one rule are a map from tag to element.
 */
module ConfigSpec {
  import opened Lists
  import opened Options
  import Text

  /** Tags of the elements inside an interface or a rule. */
  datatype Tag =
    | Enable | If | Descr | IpAddr | Subnet | IpAddrV6 | Type | Interface | IpProtocol | Direction | Quick
    | StateType | Protocol | Floating | Source | Destination | Address | Network | Port | Created | Time | Username
    | Other(name: string)

  datatype Elem = Elem(text: string, kids: map<Tag, Elem>)

  /** A child of `<interfaces>`; its tag is the interface's key. */
  datatype Assigned = Assigned(tag: string, elem: Elem)

  /** An `<interfaces>` node of the WebGUI settings: listed children, or text with commas. */
  datatype Listen = Listen(text: string, items: seq<string>)

  datatype Webgui = Webgui(port: Option<string>, protocol: Option<string>, listen: seq<Listen>)

  datatype Config = Config(interfaces: Option<seq<Assigned>>, filter: Option<seq<Elem>>, webgui: Option<Webgui>)

  /** The Hub's answer after its addresses were parsed. */
  datatype Payload = Payload(firewallIp: string, prefix: string, hubIp: string)

  const EMPTY := Elem("", map[])
  const WG_IFACE := "wgopnhub"
  const ASSIGNED_IF_DESCR := "OPNHUB"
  const RULE_DESCR := "Allow OPNsense Hub WebGUI proxy"
  const FLOATING_RULE_DESCR := "Allow OPNsense Hub WebGUI proxy (floating)"

  // ---------- Elements ----------

  function Child(e: Elem, tag: Tag): Option<Elem> {
    if tag in e.kids then Some(e.kids[tag]) else None
  }

  function FindText(e: Elem, tag: Tag): Option<string> {
    match Child(e, tag) case None => None case Some(child) => Some(child.text)
  }

  function FindText2(e: Elem, outer: Tag, tag: Tag): Option<string> {
    match Child(e, outer) case None => None case Some(child) => FindText(child, tag)
  }

  function FindOrCreate(e: Elem, tag: Tag): Elem {
    match Child(e, tag) case None => EMPTY case Some(child) => child
  }

  // ---------- The assigned interface ----------

  predicate IsOurs(child: Assigned) {
    FindText(child.elem, If) == Some(WG_IFACE) || FindText(child.elem, Descr) == Some(ASSIGNED_IF_DESCR)
  }

  function OptKey(n: nat): string {
    "opt" + Text.Show(n)
  }

  function Tags(list: seq<Assigned>): set<string> {
    set i | 0 <= i < |list| :: list[i].tag
  }

  function OptKeys(n: nat): set<string> {
    if n == 0 then {} else OptKeys(n - 1) + {OptKey(n)}
  }

  lemma OptKeyIsInjective(m: nat, n: nat)
    requires OptKey(m) == OptKey(n)
    ensures m == n
  {
    assert OptKey(n)[3..] == Text.Show(n) && OptKey(m)[3..] == Text.Show(m);
    Text.ReadShow(n);
    Text.ReadShow(m);
  }

  lemma {:induction false} OptKeysBelow(n: nat, above: nat)
    requires n < above
    ensures OptKey(above) !in OptKeys(n)
  {
    if n > 0 {
      OptKeysBelow(n - 1, above);
      if OptKey(n) == OptKey(above) {
        OptKeyIsInjective(n, above);
      }
    }
  }

  lemma {:induction false} OptKeysAre(n: nat, used: set<string>)
    requires forall m: nat :: 1 <= m <= n ==> OptKey(m) in used
    ensures |OptKeys(n)| == n && OptKeys(n) <= used
  {
    if n > 0 {
      OptKeysAre(n - 1, used);
      OptKeysBelow(n - 1, n);
    }
  }

  /** `tried` keys in use fit into the keys in use. */
  lemma TriedFits(used: set<string>, tried: nat)
    requires forall m: nat :: 1 <= m <= tried ==> OptKey(m) in used
    ensures tried <= |used|
  {
    OptKeysAre(tried, used);
    assert used == OptKeys(tried) + (used - OptKeys(tried));
  }

  /** The least unused `optN`, found within one more try than there are keys in use. */
  function FreshIndex(used: set<string>, tried: nat): (n: nat)
    requires forall m: nat :: 1 <= m <= tried ==> OptKey(m) in used
    ensures tried < n <= |used| + 1 && OptKey(n) !in used && forall m: nat :: 1 <= m < n ==> OptKey(m) in used
    decreases |used| - tried
  {
    TriedFits(used, tried);
    if OptKey(tried + 1) in used then
      TriedFits(used, tried + 1);
      FreshIndex(used, tried + 1)
    else tried + 1
  }

  const INTERFACE_TAGS := {Enable, If, Descr, IpAddr, Subnet, IpAddrV6}

  /** What becomes of one child of the assigned interface. */
  function InterfaceChild(e: Elem, payload: Payload, tag: Tag): Option<Elem> {
    match tag
    case Enable => Some(FindOrCreate(e, tag).(text := "1"))
    case If => Some(FindOrCreate(e, tag).(text := WG_IFACE))
    case Descr => Some(FindOrCreate(e, tag).(text := ASSIGNED_IF_DESCR))
    case IpAddr => Some(FindOrCreate(e, tag).(text := payload.firewallIp))
    case Subnet => Some(FindOrCreate(e, tag).(text := payload.prefix))
    case IpAddrV6 => Some(FindOrCreate(e, tag).(text := "none"))
    case Type => None
    case _ => Child(e, tag)
  }

  function ConfigureInterface(e: Elem, payload: Payload): Elem {
    Elem(e.text, map tag | tag in e.kids.Keys + INTERFACE_TAGS && InterfaceChild(e, payload, tag).Some? :: InterfaceChild(e, payload, tag).value)
  }

  /** The key of the Hub's interface: that of the first match, or a fresh one. */
  function AssignedKey(list: seq<Assigned>): string {
    var i := First(list, IsOurs);
    if i < |list| then list[i].tag else OptKey(FreshIndex(Tags(list), 0))
  }

  function EnsureAssigned(list: seq<Assigned>, payload: Payload): seq<Assigned> {
    var key := AssignedKey(list);
    var i := First(list, (child: Assigned) => child.tag == key);
    if i < |list| then list[i := Assigned(key, ConfigureInterface(list[i].elem, payload))]
    else list + [Assigned(key, ConfigureInterface(EMPTY, payload))]
  }

  // ---------- Firewall rules ----------

  datatype RuleArgs = RuleArgs(key: string, source: string, destination: string, port: string)

  /** The part of `rule_matches` that ignores the description. */
  predicate SameTraffic(rule: Elem, args: RuleArgs) {
    && FindText(rule, Type) == Some("pass")
    && FindText(rule, Interface) == Some(args.key)
    && FindText(rule, IpProtocol) == Some("inet")
    && FindText(rule, Protocol) == Some("tcp")
    && FindText2(rule, Source, Address) == Some(args.source)
    && FindText2(rule, Destination, Address) == Some(args.destination)
    && FindText2(rule, Destination, Port) == Some(args.port)
  }

  predicate RuleMatches(rule: Elem, args: RuleArgs, descr: string) {
    FindText(rule, Descr) == Some(descr) || SameTraffic(rule, args)
  }

  const RULE_TAGS := {Type, Interface, IpProtocol, Direction, Quick, StateType, Protocol, Floating, Source, Destination, Descr}

  function ConfigureSource(e: Elem, args: RuleArgs): Elem {
    e.(kids := e.kids[Address := FindOrCreate(e, Address).(text := args.source)])
  }

  function DestinationChild(e: Elem, args: RuleArgs, tag: Tag): Option<Elem> {
    match tag
    case Network => None
    case Address => Some(FindOrCreate(e, tag).(text := args.destination))
    case Port => Some(FindOrCreate(e, tag).(text := args.port))
    case _ => Child(e, tag)
  }

  function ConfigureDestination(e: Elem, args: RuleArgs): Elem {
    Elem(e.text, map tag | tag in e.kids.Keys + {Address, Port} && DestinationChild(e, args, tag).Some? :: DestinationChild(e, args, tag).value)
  }

  /** What becomes of one child of a configured rule. */
  function RuleChild(rule: Elem, args: RuleArgs, descr: string, floating: bool, tag: Tag): Option<Elem> {
    match tag
    case Type => Some(FindOrCreate(rule, tag).(text := "pass"))
    case Interface => Some(FindOrCreate(rule, tag).(text := args.key))
    case IpProtocol => Some(FindOrCreate(rule, tag).(text := "inet"))
    case Direction => Some(FindOrCreate(rule, tag).(text := "in"))
    case Quick => Some(FindOrCreate(rule, tag).(text := "1"))
    case StateType => Some(FindOrCreate(rule, tag).(text := "keep state"))
    case Protocol => Some(FindOrCreate(rule, tag).(text := "tcp"))
    case Floating => if floating then Some(FindOrCreate(rule, tag).(text := "yes")) else None
    case Source => Some(ConfigureSource(FindOrCreate(rule, tag), args))
    case Destination => Some(ConfigureDestination(FindOrCreate(rule, tag), args))
    case Descr => Some(FindOrCreate(rule, tag).(text := descr))
    case _ => Child(rule, tag)
  }

  function ConfigureRule(rule: Elem, args: RuleArgs, descr: string, floating: bool): Elem {
    Elem(rule.text, map tag | tag in rule.kids.Keys + RULE_TAGS && RuleChild(rule, args, descr, floating, tag).Some?
      :: RuleChild(rule, args, descr, floating, tag).value)
  }

  /** When the rule was made, and by whom. */
  function CreatedBy(now: string): Elem {
    Elem("", map[Time := Elem(now, map[]), Username := Elem("OPNsense Hub", map[])])
  }

  function NewRule(args: RuleArgs, descr: string, floating: bool, now: string): Elem {
    var rule := ConfigureRule(EMPTY, args, descr, floating);
    rule.(kids := rule.kids[Created := CreatedBy(now)])
  }

  function EnsureRule(rules: seq<Elem>, args: RuleArgs, descr: string, floating: bool, now: string): seq<Elem> {
    var i := First(rules, rule => RuleMatches(rule, args, descr));
    if i < |rules| then rules[i := ConfigureRule(rules[i], args, descr, floating)]
    else rules + [NewRule(args, descr, floating, now)]
  }

  /** Both calls, as the integration makes them. */
  function EnsureRules(rules: seq<Elem>, args: RuleArgs, now: string): seq<Elem> {
    EnsureRule(EnsureRule(rules, args, RULE_DESCR, false, now), args, FLOATING_RULE_DESCR, true, now)
  }

  predicate HasOurDescr(rule: Elem) {
    FindText(rule, Descr) == Some(RULE_DESCR) || FindText(rule, Descr) == Some(FLOATING_RULE_DESCR)
  }

  function RemoveRules(rules: seq<Elem>): seq<Elem> {
    if rules == [] then []
    else if HasOurDescr(rules[0]) then RemoveRules(rules[1..])
    else [rules[0]] + RemoveRules(rules[1..])
  }

  // ---------- WebGUI ----------

  function OrElse(value: Option<string>, default: string): string {
    if value.Some? && value.value != "" then value.value else default
  }

  function WebguiPort(webgui: Option<Webgui>): string {
    if webgui.None? then "443"
    else
      var port := Text.Strip(OrElse(webgui.value.port, ""));
      if port != "" then port
      else if Text.Lower(Text.Strip(OrElse(webgui.value.protocol, "https"))) == "http" then "80"
      else "443"
  }

  function StripAll(values: seq<string>): (stripped: seq<string>)
    ensures |stripped| == |values| && forall i :: 0 <= i < |values| ==> stripped[i] == Text.Strip(values[i])
  {
    if values == [] then [] else [Text.Strip(values[0])] + StripAll(values[1..])
  }

  /** The values that are not blank. */
  function Filled(values: seq<string>): seq<string> {
    if values == [] then []
    else if values[0] == "" then Filled(values[1..])
    else [values[0]] + Filled(values[1..])
  }

  function NodeValues(node: Listen): seq<string> {
    Filled(StripAll(if node.items != [] then node.items else Text.Split(node.text, ',')))
  }

  function ListenValues(nodes: seq<Listen>): seq<string> {
    if nodes == [] then [] else NodeValues(nodes[0]) + ListenValues(nodes[1..])
  }

  function AddListen(nodes: seq<Listen>, key: string): seq<Listen> {
    var values := ListenValues(nodes);
    if values == [] || key in values then nodes
    else if nodes[0].items != [] then nodes[0 := nodes[0].(items := nodes[0].items + [key])]
    else if |nodes| == 1 && ',' in nodes[0].text then [nodes[0].(text := Text.Join(values + [key], ','))]
    else nodes + [Listen(key, [])]
  }

  function Without(values: seq<string>, key: string): seq<string> {
    if values == [] then []
    else if values[0] == key then Without(values[1..], key)
    else [values[0]] + Without(values[1..], key)
  }

  function DropItems(items: seq<string>, key: string): seq<string> {
    if items == [] then []
    else if Text.Strip(items[0]) == key then DropItems(items[1..], key)
    else [items[0]] + DropItems(items[1..], key)
  }

  /** One node of `remove_webgui_listen_interface`; `None` when the node itself goes. */
  function RemoveFromNode(node: Listen, key: string): Option<Listen> {
    if node.items != [] then
      var items := DropItems(node.items, key);
      if items == [] && Text.Strip(node.text) == "" then None else Some(node.(items := items))
    else if key !in NodeValues(node) then Some(node)
    else
      var values := Without(NodeValues(node), key);
      if values == [] then None else Some(node.(text := Text.Join(values, ',')))
  }

  function RemoveListen(nodes: seq<Listen>, key: string): seq<Listen> {
    if nodes == [] then []
    else
      var rest := RemoveListen(nodes[1..], key);
      match RemoveFromNode(nodes[0], key)
      case None => rest
      case Some(node) => [node] + rest
  }

  // ---------- Integration and cleanup ----------

  function Interfaces(c: Config): seq<Assigned> {
    match c.interfaces case None => [] case Some(list) => list
  }

  function Rules(c: Config): seq<Elem> {
    match c.filter case None => [] case Some(rules) => rules
  }

  function ListenNodes(c: Config): seq<Listen> {
    match c.webgui case None => [] case Some(webgui) => webgui.listen
  }

  function WithListen(webgui: Option<Webgui>, listen: seq<Listen>): Option<Webgui> {
    match webgui case None => None case Some(w) => Some(w.(listen := listen))
  }

  function ArgsFor(c: Config, payload: Payload): RuleArgs {
    RuleArgs(AssignedKey(Interfaces(c)), payload.hubIp + "/32", payload.firewallIp + "/32", WebguiPort(c.webgui))
  }

  /** `ensure_opnsense_integration`, at time `now`. */
  function Integrate(c: Config, payload: Payload, now: string): Config {
    Config(
      Some(EnsureAssigned(Interfaces(c), payload)),
      Some(EnsureRules(Rules(c), ArgsFor(c, payload), now)),
      WithListen(c.webgui, AddListen(ListenNodes(c), AssignedKey(Interfaces(c)))))
  }

  function RemoveAssigned(list: seq<Assigned>): seq<Assigned> {
    var i := First(list, IsOurs);
    if i < |list| then list[..i] + list[i+1..] else list
  }

  /** `cleanup_opnsense_integration` */
  function Cleanup(c: Config): Config {
    var list := Interfaces(c);
    var i := First(list, IsOurs);
    Config(
      if c.interfaces.None? then None else Some(RemoveAssigned(list)),
      if c.filter.None? then None else Some(RemoveRules(Rules(c))),
      if i < |list| && list[i].tag != "" then WithListen(c.webgui, RemoveListen(ListenNodes(c), list[i].tag)) else c.webgui)
  }
}
