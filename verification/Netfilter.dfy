/** The filter table of one Linux host: chains of ordered rules, the iptables
    operations the firewall manager issues, and the verdict a packet gets. */
module Netfilter {

  datatype Chain =
    | INPUT | FORWARD | OUTPUT
    | SYN_FLOOD | HTTP_FLOOD | PORT_SCAN | BOGON_FILTER | UDP_FLOOD
    | Custom(name: string)

  datatype Protocol = Tcp | Udp | Icmp | Sctp | Dccp | Gre

  /** One test of a rule's match part. `Other` stands for any test an operator wrote. */
  datatype Test =
    | Proto(protocol: Protocol)
    | Syn | NotSyn                                      // --syn, ! --syn
    | DestPort(port: nat) | MultiPort(ports: seq<nat>)
    | TcpFlags(mask: string, set_: string)
    | EchoRequest
    | HashLimit(above: nat, burst: nat, name: string)   // per second and source IP
    | Limit(rate: nat, burst: nat)
    | ConnLimit(above: nat)
    | ConnLimitMask(above: nat, prefix: nat)
    | CtState(state: string)
    | Source(a: nat, b: nat, c: nat, d: nat, bits: nat)
    | Fragment
    | IpOption(option: string)
    | Other(text: string)

  /** The tests of a rule, all of which must hold; -C and -D compare rules as a whole. */
  type Match = seq<Test>

  datatype Target = Accept | Drop | Reject | Return | Log | Jump(chain: Chain)

  datatype Rule = Rule(cond: Match, target: Target)

  datatype Verdict = Accepted | Dropped | Rejected

  /** The built-in chains are the keys of `policy`. */
  datatype Table = Table(chains: map<Chain, seq<Rule>>, policy: map<Chain, Verdict>)

  datatype Op =
    | New(chain: Chain)                            // -N
    | Flush(chain: Chain)                          // -F
    | Append(chain: Chain, rule: Rule)             // -A
    | EnsureAppended(chain: Chain, rule: Rule)     // -C || -A
    | EnsureInserted(chain: Chain, rule: Rule)     // -C || -I
    | Delete(chain: Chain, rule: Rule)             // -D, the first equal rule
    | DeleteChain(chain: Chain)                    // -X

  /** `quiet` commands end in `2>/dev/null || true`. */
  datatype Cmd = Cmd(op: Op, quiet: bool)

  ghost predicate WellFormed(t: Table) {
    && t.policy.Keys == {INPUT, FORWARD, OUTPUT}
    && t.policy.Keys <= t.chains.Keys
    && forall c, r :: c in t.chains && r in t.chains[c] && r.target.Jump? ==>
         r.target.chain in t.chains && r.target.chain !in t.policy
  }

  predicate References(rules: seq<Rule>, c: Chain) {
    exists r :: r in rules && r.target == Jump(c)
  }

  /** A user chain exists before a rule may jump to it. A rule added to a built-in
      chain can close no loop, since no rule jumps to a built-in chain. */
  predicate TargetKnown(t: Table, r: Rule) {
    r.target.Jump? ==> r.target.chain in t.chains && r.target.chain !in t.policy
  }

  predicate Succeeds(t: Table, op: Op) {
    match op
    case New(c) => c !in t.chains
    case Flush(c) => c in t.chains
    case Append(c, r) => c in t.chains && TargetKnown(t, r)
    case EnsureAppended(c, r) => c in t.chains && (r in t.chains[c] || TargetKnown(t, r))
    case EnsureInserted(c, r) => c in t.chains && (r in t.chains[c] || TargetKnown(t, r))
    case Delete(c, r) => c in t.chains && r in t.chains[c]
    case DeleteChain(c) =>
      && c in t.chains && c !in t.policy && t.chains[c] == []
      && forall d :: d in t.chains ==> !References(t.chains[d], c)
  }

  function RemoveFirst(rules: seq<Rule>, r: Rule): (left: seq<Rule>)
    requires r in rules
    ensures multiset(left) == multiset(rules) - multiset{r}
  {
    if rules[0] == r then
      assert rules == [r] + rules[1..];
      rules[1..]
    else
      assert rules == [rules[0]] + rules[1..];
      [rules[0]] + RemoveFirst(rules[1..], r)
  }

  /** The table after one operation; an operation that fails changes nothing. */
  function Effect(t: Table, op: Op): Table {
    if !Succeeds(t, op) then t else
    match op
    case New(c) => t.(chains := t.chains[c := []])
    case Flush(c) => t.(chains := t.chains[c := []])
    case Append(c, r) => t.(chains := t.chains[c := t.chains[c] + [r]])
    case EnsureAppended(c, r) =>
      if r in t.chains[c] then t else t.(chains := t.chains[c := t.chains[c] + [r]])
    case EnsureInserted(c, r) =>
      if r in t.chains[c] then t else t.(chains := t.chains[c := [r] + t.chains[c]])
    case Delete(c, r) => t.(chains := t.chains[c := RemoveFirst(t.chains[c], r)])
    case DeleteChain(c) => t.(chains := t.chains - {c})
  }

  /** What the executor did with a command: it ran on the host (printing
      `stderr` should it fail), or it was lost on the way with that error. */
  datatype Fate = Delivered(stderr: string) | Lost(stderr: string)

  function Perform(t: Table, cmd: Cmd, fate: Fate): Table {
    if fate.Delivered? then Effect(t, cmd.op) else t
  }

  function Run(t: Table, cmds: seq<Cmd>, fates: seq<Fate>): Table
    requires |fates| == |cmds|
    decreases |cmds|
  {
    if cmds == [] then t
    else Run(Perform(t, cmds[0], fates[0]), cmds[1..], fates[1..])
  }

  /** A run in which every command reaches the host. */
  function RunAll(t: Table, cmds: seq<Cmd>): Table
    decreases |cmds|
  {
    if cmds == [] then t else RunAll(Effect(t, cmds[0].op), cmds[1..])
  }

  lemma {:induction false} RunConcat(t: Table, xs: seq<Cmd>, ys: seq<Cmd>)
    ensures RunAll(t, xs + ys) == RunAll(RunAll(t, xs), ys)
    decreases |xs|
  {
    if xs == [] {
      assert xs + ys == ys;
    } else {
      assert (xs + ys)[1..] == xs[1..] + ys;
      RunConcat(Effect(t, xs[0].op), xs[1..], ys);
    }
  }

  lemma {:induction false} RunDelivered(t: Table, cmds: seq<Cmd>, fates: seq<Fate>)
    requires |fates| == |cmds| && forall f :: f in fates ==> f.Delivered?
    ensures Run(t, cmds, fates) == RunAll(t, cmds)
    decreases |cmds|
  {
    if cmds != [] {
      RunDelivered(Effect(t, cmds[0].op), cmds[1..], fates[1..]);
    }
  }

  // ---------- Packets ----------

  /** A packet is known by the tests it passes: any predicate on tests will do. */
  type Packet = Test -> bool

  predicate Hits(m: Match, pkt: Packet) {
    forall x :: x in m ==> pkt(x)
  }

  /** What a chain does with a packet: a verdict, or back to the caller. */
  datatype Outcome = Final(verdict: Verdict) | Through

  ghost predicate Below(t: Table, rank: Chain -> nat, limit: nat, r: Rule) {
    r.target.Jump? ==> r.target.chain in t.chains && rank(r.target.chain) < limit
  }

  ghost predicate AllBelow(t: Table, rank: Chain -> nat, limit: nat, rules: seq<Rule>) {
    forall r :: r in rules ==> Below(t, rank, limit, r)
  }

  ghost predicate Ranked(t: Table, rank: Chain -> nat) {
    forall c :: c in t.chains ==> AllBelow(t, rank, rank(c), t.chains[c])
  }

  ghost predicate Acyclic(t: Table) {
    exists rank :: Ranked(t, rank)
  }

  ghost function Walk(t: Table, rank: Chain -> nat, pkt: Packet, rules: seq<Rule>, limit: nat): Outcome
    requires Ranked(t, rank) && AllBelow(t, rank, limit, rules)
    decreases limit, |rules|
  {
    if rules == [] then Through
    else
      var r := rules[0];
      assert Below(t, rank, limit, r);
      if !Hits(r.cond, pkt) then Walk(t, rank, pkt, rules[1..], limit)
      else match r.target
        case Accept => Final(Accepted)
        case Drop => Final(Dropped)
        case Reject => Final(Rejected)
        case Return => Through
        case Log => Walk(t, rank, pkt, rules[1..], limit)
        case Jump(d) =>
          var o := Walk(t, rank, pkt, t.chains[d], rank(d));
          if o.Final? then o else Walk(t, rank, pkt, rules[1..], limit)
  }

  ghost function VerdictBy(t: Table, rank: Chain -> nat, hook: Chain, pkt: Packet): Verdict
    requires Ranked(t, rank) && hook in t.policy && hook in t.chains
  {
    var o := Walk(t, rank, pkt, t.chains[hook], rank(hook));
    if o.Final? then o.verdict else t.policy[hook]
  }

  /** The verdict at a built-in chain. */
  ghost function VerdictOf(t: Table, hook: Chain, pkt: Packet): Verdict
    requires Acyclic(t) && hook in t.policy && hook in t.chains
  {
    var rank :| Ranked(t, rank);
    VerdictBy(t, rank, hook, pkt)
  }

  lemma {:induction false} WalkAnyRank(t: Table, rank1: Chain -> nat, rank2: Chain -> nat,
                                       pkt: Packet, rules: seq<Rule>, limit1: nat, limit2: nat)
    requires Ranked(t, rank1) && AllBelow(t, rank1, limit1, rules)
    requires Ranked(t, rank2) && AllBelow(t, rank2, limit2, rules)
    ensures Walk(t, rank1, pkt, rules, limit1) == Walk(t, rank2, pkt, rules, limit2)
    decreases limit1, |rules|
  {
    if rules != [] {
      var r := rules[0];
      assert Below(t, rank1, limit1, r) && Below(t, rank2, limit2, r);
      WalkAnyRank(t, rank1, rank2, pkt, rules[1..], limit1, limit2);
      if r.target.Jump? {
        var d := r.target.chain;
        WalkAnyRank(t, rank1, rank2, pkt, t.chains[d], rank1(d), rank2(d));
      }
    }
  }

  /** The verdict depends on the table alone, not on the ranking that shows it acyclic. */
  lemma VerdictAnyRank(t: Table, rank: Chain -> nat, hook: Chain, pkt: Packet)
    requires Ranked(t, rank) && hook in t.policy && hook in t.chains
    ensures Acyclic(t) && VerdictOf(t, hook, pkt) == VerdictBy(t, rank, hook, pkt)
  {
    forall rank' | Ranked(t, rank') ensures VerdictBy(t, rank', hook, pkt) == VerdictBy(t, rank, hook, pkt) {
      WalkAnyRank(t, rank', rank, pkt, t.chains[hook], rank'(hook), rank(hook));
    }
  }
}
