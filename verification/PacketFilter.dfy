/**
 Packets, rules and chains, and how a ruleset decides a packet. Matches that the Hub does not
 write itself are `Other`, decided by an arbitrary environment, so a statement about every
 ruleset covers rules of any kind that were there before.
 */
module PacketFilter {
  import opened Powers

  datatype Family = V4 | V6

  datatype CtState = New | Established | Related | Invalid | Untracked

  datatype Packet = Packet(family: Family, iface: string, source: int, destination: int, tcp: bool, dport: int, ct: CtState, rest: string)

  datatype Match =
    | InIface(name: string)
    | CtIn(states: set<CtState>)
    | SourceIn(network: int, prefix: nat)   // an IPv4 network
    | DestinationIs(address: int)           // an IPv4 address
    | Tcp
    | Dport(port: int)
    | Other(text: string)

  datatype Target = Accept | Drop | Return | Jump(chain: string) | Pass(action: string)

  datatype Rule = Rule(matches: seq<Match>, target: Target)

  type Chains = map<string, seq<Rule>>

  type Env = (string, Packet) -> bool

  datatype Verdict = Accepted | Dropped | FallsThrough

  /** `address in network`, whatever host bits the network was written with. */
  predicate InNetwork(address: int, network: int, prefix: nat) {
    prefix <= 32 && address / Pow2(32 - prefix) == network / Pow2(32 - prefix)
  }

  predicate Matches(env: Env, m: Match, p: Packet) {
    match m
    case InIface(name) => p.iface == name
    case CtIn(states) => p.ct in states
    case SourceIn(network, prefix) => p.family == V4 && InNetwork(p.source, network, prefix)
    case DestinationIs(address) => p.family == V4 && p.destination == address
    case Tcp => p.tcp
    case Dport(port) => p.dport == port
    case Other(text) => env(text, p)
  }

  predicate Applies(env: Env, r: Rule, p: Packet) {
    forall i :: 0 <= i < |r.matches| ==> Matches(env, r.matches[i], p)
  }

  /** Walk a rule list. `depth` is what is left of the jump stack: the kernel drops a packet that
      jumps deeper than its stack. */
  function Walk(env: Env, chains: Chains, rules: seq<Rule>, p: Packet, depth: nat): Verdict
    decreases depth, |rules|
  {
    if rules == [] then FallsThrough
    else if !Applies(env, rules[0], p) then Walk(env, chains, rules[1..], p, depth)
    else
      match rules[0].target
      case Accept => Accepted
      case Drop => Dropped
      case Return => FallsThrough
      case Pass(_) => Walk(env, chains, rules[1..], p, depth)
      case Jump(chain) =>
        if depth == 0 || chain !in chains then Dropped
        else
          var inner := Walk(env, chains, chains[chain], p, depth - 1);
          if inner == FallsThrough then Walk(env, chains, rules[1..], p, depth) else inner
  }

  /** What a built-in chain with a policy decides. */
  predicate Passes(env: Env, chains: Chains, builtin: string, policyAccepts: bool, p: Packet, depth: nat)
    requires builtin in chains
  {
    match Walk(env, chains, chains[builtin], p, depth)
    case Accepted => true
    case Dropped => false
    case FallsThrough => policyAccepts
  }

  /** A base chain of some nftables table, with the other chains of its table and its policy. */
  datatype BaseChain = BaseChain(chains: Chains, rules: seq<Rule>, accepts: bool)

  predicate Lets(env: Env, b: BaseChain, p: Packet, depth: nat) {
    match Walk(env, b.chains, b.rules, p, depth)
    case Accepted => true
    case Dropped => false
    case FallsThrough => b.accepts
  }

  /** A hook asks its base chains in the order of their priorities. A drop is final; an accept ends
      the base chain and no more, so the next one is asked. */
  predicate HookPasses(env: Env, bases: seq<BaseChain>, p: Packet, depth: nat) {
    bases == [] || (Lets(env, bases[0], p, depth) && HookPasses(env, bases[1..], p, depth))
  }

  lemma {:induction false} HookAsksEveryone(env: Env, bases: seq<BaseChain>, p: Packet, depth: nat)
    ensures HookPasses(env, bases, p, depth) <==> forall i :: 0 <= i < |bases| ==> Lets(env, bases[i], p, depth)
  {
    if bases != [] {
      HookAsksEveryone(env, bases[1..], p, depth);
      assert forall i :: 1 <= i < |bases| ==> bases[i] == bases[1..][i-1];
    }
  }

  lemma {:induction false} HookSplits(env: Env, a: seq<BaseChain>, b: seq<BaseChain>, p: Packet, depth: nat)
    ensures HookPasses(env, a + b, p, depth) <==> HookPasses(env, a, p, depth) && HookPasses(env, b, p, depth)
  {
    if a == [] {
      assert a + b == b;
    } else {
      HookSplits(env, a[1..], b, p, depth);
      assert (a + b)[1..] == a[1..] + b;
    }
  }

  /** One base chain put anywhere on a hook adds its own verdict and no more. */
  lemma HookAround(env: Env, before: seq<BaseChain>, b: BaseChain, after: seq<BaseChain>, p: Packet, depth: nat)
    ensures HookPasses(env, before + [b] + after, p, depth) <==> Lets(env, b, p, depth) && HookPasses(env, before + after, p, depth)
  {
    HookSplits(env, before, after, p, depth);
    HookSplits(env, before + [b], after, p, depth);
    HookSplits(env, before, [b], p, depth);
    assert [b][1..] == [] && HookPasses(env, [], p, depth);
  }

  lemma WithoutFirst(a: seq<Rule>, b: seq<Rule>)
    requires a != []
    ensures (a + b)[0] == a[0] && (a + b)[1..] == a[1..] + b
  {
  }

  /** A rule with a target that decides nothing, a counter or a log, can stand anywhere. */
  lemma {:induction false} PassingRulesDoNotMatter(env: Env, chains: Chains, before: seq<Rule>, r: Rule, after: seq<Rule>, p: Packet, depth: nat)
    requires r.target.Pass?
    ensures Walk(env, chains, before + [r] + after, p, depth) == Walk(env, chains, before + after, p, depth)
  {
    if before == [] {
      assert [] + [r] + after == [r] + after && ([r] + after)[1..] == after && [] + after == after;
    } else {
      PassingRulesDoNotMatter(env, chains, before[1..], r, after, p, depth);
      WithoutFirst(before, [r] + after);
      WithoutFirst(before, after);
      assert before + [r] + after == before + ([r] + after) && before[1..] + [r] + after == before[1..] + ([r] + after);
    }
  }

  /** A return that applies leaves the chain undecided where nothing before it decided. */
  lemma {:induction false} ReturnEndsTheChain(env: Env, chains: Chains, before: seq<Rule>, r: Rule, after: seq<Rule>, p: Packet, depth: nat)
    requires r.target == Return && Applies(env, r, p)
    ensures Walk(env, chains, before + [r] + after, p, depth) == Walk(env, chains, before, p, depth)
  {
    if before == [] {
      assert [] + [r] + after == [r] + after;
    } else {
      ReturnEndsTheChain(env, chains, before[1..], r, after, p, depth);
      WithoutFirst(before, [r] + after);
      assert before + [r] + after == before + ([r] + after) && before[1..] + [r] + after == before[1..] + ([r] + after);
    }
  }

  function RemoveFirst(rules: seq<Rule>, r: Rule): seq<Rule> {
    if rules == [] then [] else if rules[0] == r then rules[1..] else [rules[0]] + RemoveFirst(rules[1..], r)
  }

  /** Removing a rule that does not apply to a packet does not change that packet's verdict. */
  lemma {:induction false} RemovingKeepsVerdict(env: Env, chains: Chains, rules: seq<Rule>, r: Rule, p: Packet, depth: nat)
    requires !Applies(env, r, p)
    ensures Walk(env, chains, RemoveFirst(rules, r), p, depth) == Walk(env, chains, rules, p, depth)
  {
    if rules != [] && rules[0] != r {
      RemovingKeepsVerdict(env, chains, rules[1..], r, p, depth);
      assert RemoveFirst(rules, r)[1..] == RemoveFirst(rules[1..], r);
    }
  }

  /** No rule that applies to the packet jumps to one of `names`. */
  predicate Avoids(env: Env, rules: seq<Rule>, names: set<string>, p: Packet) {
    forall i :: 0 <= i < |rules| && rules[i].target.Jump? && rules[i].target.chain in names ==> !Applies(env, rules[i], p)
  }

  /** What is in chains that a packet never reaches does not matter to it. */
  lemma {:induction false} UnreachedChainsDoNotMatter(env: Env, a: Chains, b: Chains, names: set<string>, rules: seq<Rule>, p: Packet, depth: nat)
    requires forall c :: c !in names ==> (c in a <==> c in b) && (c in a ==> a[c] == b[c])
    requires Avoids(env, rules, names, p)
    requires forall c :: c in a && c !in names ==> Avoids(env, a[c], names, p)
    ensures Walk(env, a, rules, p, depth) == Walk(env, b, rules, p, depth)
    decreases depth, |rules|
  {
    if rules != [] {
      assert Avoids(env, rules[1..], names, p);
      UnreachedChainsDoNotMatter(env, a, b, names, rules[1..], p, depth);
      if Applies(env, rules[0], p) && rules[0].target.Jump? && depth > 0 && rules[0].target.chain in a {
        UnreachedChainsDoNotMatter(env, a, b, names, a[rules[0].target.chain], p, depth - 1);
      }
    }
  }
}
