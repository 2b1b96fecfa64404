/** The integration's edits of the firewall rules, one rule at a time and over a whole rule list. */
module ConfigRules {
  import opened Lists
  import opened Options
  import opened ConfigSpec

  // ---------- One rule ----------

  lemma SameElem(a: Elem, b: Elem)
    requires a.text == b.text && forall tag :: Child(a, tag) == Child(b, tag)
    ensures a == b
  {
    forall tag ensures tag in a.kids <==> tag in b.kids {
      assert Child(a, tag) == Child(b, tag);
    }
    forall tag | tag in a.kids ensures a.kids[tag] == b.kids[tag] {
      assert Child(a, tag) == Child(b, tag);
    }
    assert a.kids == b.kids;
  }

  lemma ConfiguredChild(rule: Elem, args: RuleArgs, descr: string, floating: bool, tag: Tag)
    ensures Child(ConfigureRule(rule, args, descr, floating), tag) == RuleChild(rule, args, descr, floating, tag)
  {
  }

  lemma SourceChild(e: Elem, args: RuleArgs, tag: Tag)
    ensures Child(ConfigureSource(e, args), tag) ==
      if tag == Address then Some(FindOrCreate(e, tag).(text := args.source)) else Child(e, tag)
  {
  }

  lemma DestinationIs(e: Elem, args: RuleArgs, tag: Tag)
    ensures Child(ConfigureDestination(e, args), tag) == DestinationChild(e, args, tag)
  {
  }

  /** `r` is `rule` configured, told child by child. */
  ghost predicate IsConfigured(r: Elem, rule: Elem, args: RuleArgs, descr: string, floating: bool) {
    r.text == rule.text && forall tag :: Child(r, tag) == RuleChild(rule, args, descr, floating, tag)
  }

  lemma ConfigureIs(rule: Elem, args: RuleArgs, descr: string, floating: bool)
    ensures IsConfigured(ConfigureRule(rule, args, descr, floating), rule, args, descr, floating)
  {
    forall tag ensures Child(ConfigureRule(rule, args, descr, floating), tag) == RuleChild(rule, args, descr, floating, tag) {
      ConfiguredChild(rule, args, descr, floating, tag);
    }
  }

  lemma ConfiguredText(r: Elem, rule: Elem, args: RuleArgs, descr: string, floating: bool, tag: Tag, value: string)
    requires IsConfigured(r, rule, args, descr, floating)
    requires RuleChild(rule, args, descr, floating, tag) == Some(FindOrCreate(rule, tag).(text := value))
    ensures FindText(r, tag) == Some(value)
  {
    assert Child(r, tag) == RuleChild(rule, args, descr, floating, tag);
  }

  lemma FoundInside(r: Elem, outer: Tag, e: Elem, tag: Tag)
    requires Child(r, outer) == Some(e)
    ensures FindText2(r, outer, tag) == FindText(e, tag)
  {
  }

  lemma EndTexts(e: Elem, args: RuleArgs)
    ensures FindText(ConfigureSource(e, args), Address) == Some(args.source)
    ensures FindText(ConfigureDestination(e, args), Address) == Some(args.destination)
    ensures FindText(ConfigureDestination(e, args), Port) == Some(args.port)
  {
    SourceChild(e, args, Address);
    DestinationIs(e, args, Address);
    DestinationIs(e, args, Port);
  }

  lemma ConfiguredEnds(r: Elem, rule: Elem, args: RuleArgs, descr: string, floating: bool)
    requires IsConfigured(r, rule, args, descr, floating)
    ensures FindText2(r, Source, Address) == Some(args.source)
    ensures FindText2(r, Destination, Address) == Some(args.destination)
    ensures FindText2(r, Destination, Port) == Some(args.port)
  {
    var source, destination := FindOrCreate(rule, Source), FindOrCreate(rule, Destination);
    EndTexts(source, args);
    EndTexts(destination, args);
    assert Child(r, Source) == RuleChild(rule, args, descr, floating, Source);
    assert Child(r, Destination) == RuleChild(rule, args, descr, floating, Destination);
    FoundInside(r, Source, ConfigureSource(source, args), Address);
    FoundInside(r, Destination, ConfigureDestination(destination, args), Address);
    FoundInside(r, Destination, ConfigureDestination(destination, args), Port);
  }

  lemma ConfiguredTraffic(r: Elem, rule: Elem, args: RuleArgs, descr: string, floating: bool)
    requires IsConfigured(r, rule, args, descr, floating)
    ensures SameTraffic(r, args)
    ensures FindText(r, Descr) == Some(descr) && FindText(r, Floating) == if floating then Some("yes") else None
  {
    ConfiguredEnds(r, rule, args, descr, floating);
    ConfiguredText(r, rule, args, descr, floating, Type, "pass");
    ConfiguredText(r, rule, args, descr, floating, Interface, args.key);
    ConfiguredText(r, rule, args, descr, floating, IpProtocol, "inet");
    ConfiguredText(r, rule, args, descr, floating, Protocol, "tcp");
    ConfiguredText(r, rule, args, descr, floating, Descr, descr);
    if floating {
      ConfiguredText(r, rule, args, descr, floating, Floating, "yes");
    } else {
      assert Child(r, Floating) == RuleChild(rule, args, descr, floating, Floating);
    }
  }

  /** What else a configured rule says: it passes inbound traffic at once and keeps state. */
  predicate IsInboundPass(rule: Elem) {
    FindText(rule, Direction) == Some("in") && FindText(rule, Quick) == Some("1") && FindText(rule, StateType) == Some("keep state")
  }

  lemma ConfiguredInbound(rule: Elem, args: RuleArgs, descr: string, floating: bool)
    ensures IsInboundPass(ConfigureRule(rule, args, descr, floating))
  {
    var r := ConfigureRule(rule, args, descr, floating);
    ConfigureIs(rule, args, descr, floating);
    ConfiguredText(r, rule, args, descr, floating, Direction, "in");
    ConfiguredText(r, rule, args, descr, floating, Quick, "1");
    ConfiguredText(r, rule, args, descr, floating, StateType, "keep state");
  }

  /** Whatever a rule held before, the children that the configuration does not name stay. */
  lemma OtherChildrenStay(rule: Elem, args: RuleArgs, descr: string, floating: bool, tag: Tag)
    requires tag !in RULE_TAGS
    ensures Child(ConfigureRule(rule, args, descr, floating), tag) == Child(rule, tag)
  {
    ConfiguredChild(rule, args, descr, floating, tag);
  }

  /** A configured rule is about the Hub's traffic, and found again by either call. */
  lemma Configured(rule: Elem, args: RuleArgs, descr: string, floating: bool)
    ensures var r := ConfigureRule(rule, args, descr, floating);
      && SameTraffic(r, args)
      && FindText(r, Descr) == Some(descr)
      && FindText(r, Floating) == if floating then Some("yes") else None
  {
    ConfigureIs(rule, args, descr, floating);
    ConfiguredTraffic(ConfigureRule(rule, args, descr, floating), rule, args, descr, floating);
  }

  /** The `<floating>` element, if there is one, has no children of its own. */
  predicate FloatingIsLeaf(rule: Elem) {
    Floating in rule.kids ==> rule.kids[Floating].kids == map[]
  }

  lemma EndsTwice(e: Elem, args: RuleArgs)
    ensures ConfigureDestination(ConfigureDestination(e, args), args) == ConfigureDestination(e, args)
    ensures ConfigureSource(ConfigureSource(e, args), args) == ConfigureSource(e, args)
  {
    var d, s := ConfigureDestination(e, args), ConfigureSource(e, args);
    forall tag ensures Child(ConfigureDestination(d, args), tag) == Child(d, tag) {
      DestinationIs(e, args, tag);
      DestinationIs(d, args, tag);
    }
    SameElem(ConfigureDestination(d, args), d);
    forall tag ensures Child(ConfigureSource(s, args), tag) == Child(s, tag) {
      SourceChild(e, args, tag);
      SourceChild(s, args, tag);
    }
    SameElem(ConfigureSource(s, args), s);
  }

  lemma ThriceFloating(rule: Elem, once: Elem, back: Elem, again: Elem, args: RuleArgs)
    requires IsConfigured(once, rule, args, FLOATING_RULE_DESCR, true)
    requires IsConfigured(back, once, args, RULE_DESCR, false)
    requires IsConfigured(again, back, args, FLOATING_RULE_DESCR, true)
    ensures Child(again, Floating) == Child(once, Floating) <==> FloatingIsLeaf(rule)
  {
    assert Child(once, Floating) == RuleChild(rule, args, FLOATING_RULE_DESCR, true, Floating);
    assert Child(back, Floating) == RuleChild(once, args, RULE_DESCR, false, Floating) == None;
    assert Child(again, Floating) == RuleChild(back, args, FLOATING_RULE_DESCR, true, Floating);
  }

  lemma ThriceConfigured(rule: Elem, once: Elem, back: Elem, again: Elem, args: RuleArgs)
    requires IsConfigured(once, rule, args, FLOATING_RULE_DESCR, true)
    requires IsConfigured(back, once, args, RULE_DESCR, false)
    requires IsConfigured(again, back, args, FLOATING_RULE_DESCR, true)
    ensures again == once <==> FloatingIsLeaf(rule)
  {
    ThriceFloating(rule, once, back, again, args);
    if FloatingIsLeaf(rule) {
      forall tag ensures Child(again, tag) == Child(once, tag) {
        EndsTwice(FindOrCreate(rule, Destination), args);
        EndsTwice(FindOrCreate(rule, Source), args);
        ThriceChild(rule, once, back, again, args, tag);
      }
      SameElem(again, once);
    }
  }

  lemma ThriceChild(rule: Elem, once: Elem, back: Elem, again: Elem, args: RuleArgs, tag: Tag)
    requires IsConfigured(once, rule, args, FLOATING_RULE_DESCR, true)
    requires IsConfigured(back, once, args, RULE_DESCR, false)
    requires IsConfigured(again, back, args, FLOATING_RULE_DESCR, true)
    requires EndsStay(FindOrCreate(rule, Source), FindOrCreate(rule, Destination), args)
    ensures tag != Floating ==> Child(again, tag) == Child(once, tag)
  {
    assert Child(once, tag) == RuleChild(rule, args, FLOATING_RULE_DESCR, true, tag);
    assert Child(back, tag) == RuleChild(once, args, RULE_DESCR, false, tag);
    assert Child(again, tag) == RuleChild(back, args, FLOATING_RULE_DESCR, true, tag);
  }

  predicate EndsStay(source: Elem, destination: Elem, args: RuleArgs) {
    && ConfigureSource(ConfigureSource(source, args), args) == ConfigureSource(source, args)
    && ConfigureDestination(ConfigureDestination(destination, args), args) == ConfigureDestination(destination, args)
  }

  /** The second run configures the same rule twice more, and gets back what the first run left. */
  lemma ConfigureAgain(rule: Elem, args: RuleArgs)
    ensures var once := ConfigureRule(rule, args, FLOATING_RULE_DESCR, true);
      ConfigureRule(ConfigureRule(once, args, RULE_DESCR, false), args, FLOATING_RULE_DESCR, true) == once
      <==> FloatingIsLeaf(rule)
  {
    var once := ConfigureRule(rule, args, FLOATING_RULE_DESCR, true);
    var back := ConfigureRule(once, args, RULE_DESCR, false);
    ConfigureIs(rule, args, FLOATING_RULE_DESCR, true);
    ConfigureIs(once, args, RULE_DESCR, false);
    ConfigureIs(back, args, FLOATING_RULE_DESCR, true);
    ThriceConfigured(rule, once, back, ConfigureRule(back, args, FLOATING_RULE_DESCR, true), args);
  }

  // ---------- A list of rules ----------

  function Match(args: RuleArgs, descr: string): Elem -> bool {
    rule => RuleMatches(rule, args, descr)
  }

  /** Where the floating call of an integration puts its rule, and what it finds there. */
  function Target(rules: seq<Elem>, args: RuleArgs, now: string): (nat, Elem) {
    var i := First(rules, Match(args, RULE_DESCR));
    var j := First(rules, Match(args, FLOATING_RULE_DESCR));
    if j < i then (j, rules[j])
    else if i < |rules| then (i, ConfigureRule(rules[i], args, RULE_DESCR, false))
    else (i, NewRule(args, RULE_DESCR, false, now))
  }

  lemma NewRuleIs(args: RuleArgs, descr: string, now: string)
    ensures var r := NewRule(args, descr, false, now);
      SameTraffic(r, args) && FindText(r, Descr) == Some(descr) && FloatingIsLeaf(r)
  {
    Configured(EMPTY, args, descr, false);
    var r := ConfigureRule(EMPTY, args, descr, false);
    forall tag | tag != Created ensures Child(NewRule(args, descr, false, now), tag) == Child(r, tag) {
    }
  }

  lemma AfterFirstCall(rules: seq<Elem>, args: RuleArgs, now: string)
    ensures var i := First(rules, Match(args, RULE_DESCR)); var r := EnsureRule(rules, args, RULE_DESCR, false, now);
      && i < |r| && rules[..i] == r[..i] && SameTraffic(r[i], args) && FindText(r[i], Descr) == Some(RULE_DESCR) && FloatingIsLeaf(r[i])
      && r == if i < |rules| then rules[i := r[i]] else rules + [r[i]]
  {
    NewRuleIs(args, RULE_DESCR, now);
    var i := First(rules, Match(args, RULE_DESCR));
    FirstIs(rules, rule => RuleMatches(rule, args, RULE_DESCR), i);
    if i < |rules| {
      Configured(rules[i], args, RULE_DESCR, false);
    }
  }

  /** No rule before position `j` is matched by either call. */
  ghost predicate ClearBefore(rules: seq<Elem>, args: RuleArgs, j: nat) {
    j <= |rules| && forall k :: 0 <= k < j ==> !IsOursRule(rules[k], args)
  }

  /** A rule that an integration or a cleanup would take for the Hub's. */
  predicate IsOursRule(rule: Elem, args: RuleArgs) {
    HasOurDescr(rule) || SameTraffic(rule, args)
  }

  lemma EnsureAt(rules: seq<Elem>, args: RuleArgs, descr: string, floating: bool, now: string, j: nat)
    requires j < |rules| && RuleMatches(rules[j], args, descr) && forall k :: 0 <= k < j ==> !RuleMatches(rules[k], args, descr)
    ensures EnsureRule(rules, args, descr, floating, now) == rules[j := ConfigureRule(rules[j], args, descr, floating)]
  {
    FirstIs(rules, rule => RuleMatches(rule, args, descr), j);
  }

  /** Both calls together: the first leaves a rule that the second can match, so the second never
      adds one. */
  lemma EnsuredRules(rules: seq<Elem>, args: RuleArgs, now: string)
    ensures var first := EnsureRule(rules, args, RULE_DESCR, false, now); var (j, rule) := Target(rules, args, now);
      && j < |first| && first[j] == rule && ClearBefore(first, args, j)
      && EnsureRules(rules, args, now) == first[j := ConfigureRule(rule, args, FLOATING_RULE_DESCR, true)]
  {
    var first := EnsureRule(rules, args, RULE_DESCR, false, now);
    var (j, rule) := Target(rules, args, now);
    TargetIs(rules, args, now);
    EnsureAt(first, args, FLOATING_RULE_DESCR, true, now, j);
  }

  lemma TargetIs(rules: seq<Elem>, args: RuleArgs, now: string)
    ensures var first := EnsureRule(rules, args, RULE_DESCR, false, now); var (j, rule) := Target(rules, args, now);
      j < |first| && first[j] == rule && ClearBefore(first, args, j) && RuleMatches(rule, args, FLOATING_RULE_DESCR)
  {
    var first := EnsureRule(rules, args, RULE_DESCR, false, now);
    var i, j := First(rules, Match(args, RULE_DESCR)), First(rules, Match(args, FLOATING_RULE_DESCR));
    AfterFirstCall(rules, args, now);
    forall k | 0 <= k < i ensures first[k] == rules[k] && !RuleMatches(first[k], args, RULE_DESCR) {
      assert rules[..i][k] == first[..i][k];
      assert !Match(args, RULE_DESCR)(rules[k]);
    }
    forall k | 0 <= k < j ensures !RuleMatches(rules[k], args, FLOATING_RULE_DESCR) {
      assert !Match(args, FLOATING_RULE_DESCR)(rules[k]);
    }
  }

  /** A later integration finds the rule of the first one in both calls. */
  lemma LaterRun(once: seq<Elem>, args: RuleArgs, j: nat, later: string)
    requires j < |once| && ClearBefore(once, args, j) && SameTraffic(once[j], args)
    ensures EnsureRules(once, args, later) ==
      once[j := ConfigureRule(ConfigureRule(once[j], args, RULE_DESCR, false), args, FLOATING_RULE_DESCR, true)]
  {
    var back := once[j := ConfigureRule(once[j], args, RULE_DESCR, false)];
    EnsureAt(once, args, RULE_DESCR, false, later, j);
    Configured(once[j], args, RULE_DESCR, false);
    EnsureAt(back, args, FLOATING_RULE_DESCR, true, later, j);
  }

  /** The floating call does not meet, before every rule of the plain call, a rule whose
      `<floating>` element has children. */
  predicate FloatingTargetIsLeaf(rules: seq<Elem>, args: RuleArgs) {
    var i := First(rules, Match(args, RULE_DESCR));
    var j := First(rules, Match(args, FLOATING_RULE_DESCR));
    j < i ==> FloatingIsLeaf(rules[j])
  }

  lemma TargetIsLeaf(rules: seq<Elem>, args: RuleArgs, now: string)
    ensures FloatingIsLeaf(Target(rules, args, now).1) <==> FloatingTargetIsLeaf(rules, args)
  {
    AfterFirstCall(rules, args, now);
    var i := First(rules, Match(args, RULE_DESCR));
    if i < |rules| {
      assert EnsureRule(rules, args, RULE_DESCR, false, now)[i] == ConfigureRule(rules[i], args, RULE_DESCR, false);
    }
  }

  /** Integrating the rules a second time, at any later time, changes nothing, exactly then. */
  lemma EnsureRulesTwice(rules: seq<Elem>, args: RuleArgs, now: string, later: string)
    ensures var once := EnsureRules(rules, args, now);
      EnsureRules(once, args, later) == once <==> FloatingTargetIsLeaf(rules, args)
  {
    var once := EnsureRules(rules, args, now);
    var (j, rule) := Target(rules, args, now);
    var kept := ConfigureRule(rule, args, FLOATING_RULE_DESCR, true);
    EnsuredRules(rules, args, now);
    assert once[j] == kept && ClearBefore(once, args, j);
    assert SameTraffic(kept, args) by { Configured(rule, args, FLOATING_RULE_DESCR, true); }
    LaterRun(once, args, j, later);
    ConfigureAgain(rule, args);
    TargetIsLeaf(rules, args, now);
    SameUpdate(once, j, ConfigureRule(ConfigureRule(kept, args, RULE_DESCR, false), args, FLOATING_RULE_DESCR, true));
  }

  lemma SameUpdate(rules: seq<Elem>, j: nat, rule: Elem)
    requires j < |rules|
    ensures rules[j := rule] == rules <==> rules[j] == rule
  {
    assert rules[j := rule][j] == rule;
  }

  /** A rule is added exactly when the plain call matches none; what neither call matches stays. */
  lemma OtherRulesStay(rules: seq<Elem>, args: RuleArgs, now: string)
    ensures var r := EnsureRules(rules, args, now);
      && |r| == |rules| + (if exists k :: 0 <= k < |rules| && (FindText(rules[k], Descr) == Some(RULE_DESCR) || SameTraffic(rules[k], args)) then 0 else 1)
      && forall k :: 0 <= k < |rules| && !IsOursRule(rules[k], args) ==> r[k] == rules[k]
  {
    var first := EnsureRule(rules, args, RULE_DESCR, false, now);
    var i := First(rules, Match(args, RULE_DESCR));
    var (j, rule) := Target(rules, args, now);
    AfterFirstCall(rules, args, now);
    EnsuredRules(rules, args, now);
    forall k | 0 <= k < |rules| ensures k < i ==> !RuleMatches(rules[k], args, RULE_DESCR) {
      assert k < i ==> !Match(args, RULE_DESCR)(rules[k]);
    }
    if i < |rules| {
      assert Match(args, RULE_DESCR)(rules[i]);
    }
    if j < |rules| {
      TargetIsOurs(rules, args, now);
    }
  }

  lemma TargetIsOurs(rules: seq<Elem>, args: RuleArgs, now: string)
    ensures var j := Target(rules, args, now).0; j < |rules| ==> IsOursRule(rules[j], args)
  {
    var i, j := First(rules, Match(args, RULE_DESCR)), First(rules, Match(args, FLOATING_RULE_DESCR));
    assert i < |rules| ==> Match(args, RULE_DESCR)(rules[i]);
    assert j < |rules| ==> Match(args, FLOATING_RULE_DESCR)(rules[j]);
  }

  /** None of the rules is the Hub's. */
  ghost predicate NoneOurs(rules: seq<Elem>, args: RuleArgs) {
    forall k :: 0 <= k < |rules| ==> !IsOursRule(rules[k], args)
  }

  /** The floating call keeps the date and the name that the plain call has written. */
  lemma CreatedStays(args: RuleArgs, now: string)
    ensures var r := ConfigureRule(NewRule(args, RULE_DESCR, false, now), args, FLOATING_RULE_DESCR, true);
      FindText2(r, Created, Time) == Some(now) && FindText2(r, Created, Username) == Some("OPNsense Hub")
  {
    OtherChildrenStay(NewRule(args, RULE_DESCR, false, now), args, FLOATING_RULE_DESCR, true, Created);
  }

  /** On rules that have nothing to do with the Hub, an integration adds one rule: the plain call
      makes it, and the floating call takes it over. */
  lemma OneFloatingRule(rules: seq<Elem>, args: RuleArgs, now: string)
    requires NoneOurs(rules, args)
    ensures var r := EnsureRules(rules, args, now);
      && |r| == |rules| + 1 && r[..|rules|] == rules
      && SameTraffic(r[|rules|], args) && IsInboundPass(r[|rules|])
      && FindText(r[|rules|], Descr) == Some(FLOATING_RULE_DESCR) && FindText(r[|rules|], Floating) == Some("yes")
      && FindText2(r[|rules|], Created, Time) == Some(now) && FindText2(r[|rules|], Created, Username) == Some("OPNsense Hub")
  {
    CreatedStays(args, now);
    FirstIs(rules, Match(args, RULE_DESCR), |rules|);
    FirstIs(rules, Match(args, FLOATING_RULE_DESCR), |rules|);
    AfterFirstCall(rules, args, now);
    EnsuredRules(rules, args, now);
    Configured(NewRule(args, RULE_DESCR, false, now), args, FLOATING_RULE_DESCR, true);
    ConfiguredInbound(NewRule(args, RULE_DESCR, false, now), args, FLOATING_RULE_DESCR, true);
  }

  lemma {:induction false} RemoveAppend(rules: seq<Elem>, rule: Elem)
    ensures RemoveRules(rules + [rule]) == RemoveRules(rules) + if HasOurDescr(rule) then [] else [rule]
  {
    if rules == [] {
      assert rules + [rule] == [rule];
    } else {
      RemoveAppend(rules[1..], rule);
      assert (rules + [rule])[1..] == rules[1..] + [rule];
    }
  }

  lemma {:induction false} RemoveNone(rules: seq<Elem>)
    requires forall k :: 0 <= k < |rules| ==> !HasOurDescr(rules[k])
    ensures RemoveRules(rules) == rules
  {
    if rules != [] {
      RemoveNone(rules[1..]);
    }
  }

  lemma {:induction false} RemoveShortens(rules: seq<Elem>, k: int)
    ensures |RemoveRules(rules)| <= |rules|
    ensures 0 <= k < |rules| && HasOurDescr(rules[k]) ==> |RemoveRules(rules)| < |rules|
  {
    if rules != [] {
      RemoveShortens(rules[1..], k - 1);
    }
  }

  lemma RemoveTwo(rules: seq<Elem>, n: nat, j: nat)
    requires j < n && |rules| == n + 1 && HasOurDescr(rules[j]) && HasOurDescr(rules[n])
    ensures |RemoveRules(rules)| < n
  {
    assert rules == rules[..n] + [rules[n]];
    RemoveAppend(rules[..n], rules[n]);
    RemoveShortens(rules[..n], j);
  }

  lemma TargetBeforeNew(rules: seq<Elem>, args: RuleArgs, now: string, k: nat)
    requires k < |rules| && IsOursRule(rules[k], args)
    ensures Target(rules, args, now).0 < |rules|
  {
    if First(rules, Match(args, RULE_DESCR)) == |rules| {
      assert !Match(args, RULE_DESCR)(rules[k]);
      assert Match(args, FLOATING_RULE_DESCR)(rules[k]);
    }
  }

  lemma CleanupTakesARule(rules: seq<Elem>, args: RuleArgs, now: string, k: nat)
    requires k < |rules| && IsOursRule(rules[k], args)
    ensures |RemoveRules(EnsureRules(rules, args, now))| < |rules|
  {
    var first := EnsureRule(rules, args, RULE_DESCR, false, now);
    var (j, rule) := Target(rules, args, now);
    var last := ConfigureRule(rule, args, FLOATING_RULE_DESCR, true);
    AfterFirstCall(rules, args, now);
    EnsuredRules(rules, args, now);
    TargetBeforeNew(rules, args, now, k);
    assert FindText(last, Descr) == Some(FLOATING_RULE_DESCR) by { Configured(rule, args, FLOATING_RULE_DESCR, true); }
    CleanupOf(first, |rules|, j, last);
  }

  lemma CleanupOf(first: seq<Elem>, n: nat, j: nat, last: Elem)
    requires j < n && (|first| == n || (|first| == n + 1 && HasOurDescr(first[n]))) && HasOurDescr(last)
    ensures |RemoveRules(first[j := last])| < n
  {
    if |first| == n {
      RemoveShortens(first[j := last], j);
    } else {
      RemoveTwo(first[j := last], n, j);
    }
  }

  /** Cleanup after an integration gives the rules back exactly when none of them was the Hub's. */
  lemma CleanupRestoresRules(rules: seq<Elem>, args: RuleArgs, now: string)
    ensures RemoveRules(EnsureRules(rules, args, now)) == rules <==> NoneOurs(rules, args)
  {
    if NoneOurs(rules, args) {
      var once := EnsureRules(rules, args, now);
      OneFloatingRule(rules, args, now);
      assert once == rules + [once[|rules|]];
      RemoveAppend(rules, once[|rules|]);
      RemoveNone(rules);
    } else {
      var k :| 0 <= k < |rules| && IsOursRule(rules[k], args);
      CleanupTakesARule(rules, args, now, k);
    }
  }
}
