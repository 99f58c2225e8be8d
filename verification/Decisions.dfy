/** What each protection decides about a packet, told from the packet's tests alone, and
    what a list of protections makes of every packet. */
module Decisions {
  import opened Netfilter
  import opened Plans
  import opened Protections
  import opened PlanRuns
  import opened PlanEffects
  import opened Tightening
  import opened L7Manager

  // ---------- What INPUT does with a packet ----------

  /** A verdict, a RETURN (both end the matter), or the end of the rules. */
  datatype Ruling = Decided(verdict: Verdict) | Returned | RanOff

  ghost function RulingBy(t: Table, rank: Chain -> nat, pkt: Packet, rules: seq<Rule>, limit: nat): Ruling
    requires Ranked(t, rank) && AllBelow(t, rank, limit, rules)
  {
    if RunsOff(t, rank, pkt, rules, limit) then RanOff
    else
      var o := Walk(t, rank, pkt, rules, limit);
      if o.Final? then Decided(o.verdict) else Returned
  }

  ghost function InputRuling(t: Table, pkt: Packet): Ruling
    requires Acyclic(t) && INPUT in t.chains
  {
    var rank :| Ranked(t, rank);
    RulingBy(t, rank, pkt, t.chains[INPUT], rank(INPUT))
  }

  lemma {:induction false} RunsOffAnyRank(t: Table, rank1: Chain -> nat, rank2: Chain -> nat, pkt: Packet,
                                          rules: seq<Rule>, limit1: nat, limit2: nat)
    requires Ranked(t, rank1) && AllBelow(t, rank1, limit1, rules)
    requires Ranked(t, rank2) && AllBelow(t, rank2, limit2, rules)
    ensures RunsOff(t, rank1, pkt, rules, limit1) <==> RunsOff(t, rank2, pkt, rules, limit2)
    decreases |rules|
  {
    if rules != [] {
      var r := rules[0];
      assert Below(t, rank1, limit1, r) && Below(t, rank2, limit2, r);
      RunsOffAnyRank(t, rank1, rank2, pkt, rules[1..], limit1, limit2);
      if r.target.Jump? {
        var d := r.target.chain;
        WalkAnyRank(t, rank1, rank2, pkt, t.chains[d], rank1(d), rank2(d));
      }
    }
  }

  lemma RulingAnyRank(t: Table, rank: Chain -> nat, pkt: Packet)
    requires Ranked(t, rank) && INPUT in t.chains
    ensures Acyclic(t) && InputRuling(t, pkt) == RulingBy(t, rank, pkt, t.chains[INPUT], rank(INPUT))
  {
    forall rank' | Ranked(t, rank')
      ensures RulingBy(t, rank', pkt, t.chains[INPUT], rank'(INPUT))
           == RulingBy(t, rank, pkt, t.chains[INPUT], rank(INPUT))
    {
      RunsOffAnyRank(t, rank', rank, pkt, t.chains[INPUT], rank'(INPUT), rank(INPUT));
      WalkAnyRank(t, rank', rank, pkt, t.chains[INPUT], rank'(INPUT), rank(INPUT));
    }
  }

  lemma {:induction false} RunningOffIsThrough(t: Table, rank: Chain -> nat, pkt: Packet, rules: seq<Rule>, limit: nat)
    requires Ranked(t, rank) && AllBelow(t, rank, limit, rules) && RunsOff(t, rank, pkt, rules, limit)
    ensures Walk(t, rank, pkt, rules, limit).Through?
    decreases |rules|
  {
    if rules != [] {
      RunningOffIsThrough(t, rank, pkt, rules[1..], limit);
    }
  }

  /** The verdict of INPUT is its ruling, or the policy. */
  lemma VerdictOfRuling(t: Table, pkt: Packet)
    requires WellFormed(t) && Acyclic(t)
    ensures VerdictOf(t, INPUT, pkt)
         == if InputRuling(t, pkt).Decided? then InputRuling(t, pkt).verdict else t.policy[INPUT]
  {
    var rank :| Ranked(t, rank);
    RulingAnyRank(t, rank, pkt);
    VerdictAnyRank(t, rank, INPUT, pkt);
    if RunsOff(t, rank, pkt, t.chains[INPUT], rank(INPUT)) {
      RunningOffIsThrough(t, rank, pkt, t.chains[INPUT], rank(INPUT));
    }
  }

  // ---------- One more rule ----------

  /** A ruling with a decision in front of it, or behind it. */
  function After(r: Ruling, front: bool, decision: Outcome): Ruling {
    if decision.Final? && (front || r.RanOff?) then Decided(decision.verdict) else r
  }

  lemma RuleInFront(t: Table, rank: Chain -> nat, pkt: Packet, r: Rule, rules: seq<Rule>, limit: nat)
    requires Ranked(t, rank) && AllBelow(t, rank, limit, rules) && Below(t, rank, limit, r)
    requires r.target in {Accept, Drop, Reject} || r.target.Jump?
    ensures AllBelow(t, rank, limit, [r] + rules) && AllBelow(t, rank, limit, [r])
    ensures RulingBy(t, rank, pkt, [r] + rules, limit)
         == After(RulingBy(t, rank, pkt, rules, limit), true, Walk(t, rank, pkt, [r], limit))
  {
    assert ([r] + rules)[1..] == rules && [r][1..] == [];
  }

  lemma RuleBehind(t: Table, rank: Chain -> nat, pkt: Packet, rules: seq<Rule>, r: Rule, limit: nat)
    requires Ranked(t, rank) && AllBelow(t, rank, limit, rules) && Below(t, rank, limit, r)
    requires r.target in {Accept, Drop, Reject}
    ensures AllBelow(t, rank, limit, rules + [r]) && AllBelow(t, rank, limit, [r])
    ensures RulingBy(t, rank, pkt, rules + [r], limit)
         == After(RulingBy(t, rank, pkt, rules, limit), false, Walk(t, rank, pkt, [r], limit))
  {
    WalkAppended(t, rank, pkt, rules, r, limit);
    RunsOffAppended(t, rank, pkt, rules, r, limit);
    assert [r][1..] == [];
  }

  ghost predicate Deciding(rules: seq<Rule>) {
    forall r :: r in rules ==> r.target in {Accept, Drop, Reject}
  }

  /** What rules that decide come to: the first that matches. */
  ghost function FirstMatch(rules: seq<Rule>, pkt: Packet): Outcome
    requires Deciding(rules)
  {
    if rules == [] then Through
    else
      assert rules[0] in rules;
      if Hits(rules[0].cond, pkt) then
        Final(match rules[0].target case Accept => Accepted case Drop => Dropped case _ => Rejected)
      else FirstMatch(rules[1..], pkt)
  }

  lemma OneRule(t: Table, rank: Chain -> nat, pkt: Packet, r: Rule, limit: nat)
    requires Ranked(t, rank) && r.target in {Accept, Drop, Reject}
    ensures AllBelow(t, rank, limit, [r]) && Deciding([r])
    ensures Walk(t, rank, pkt, [r], limit) == FirstMatch([r], pkt)
  {
    assert [r][1..] == [];
  }

  predicate NoRepeats(rules: seq<Rule>) {
    forall i, j :: 0 <= i < j < |rules| ==> rules[i] != rules[j]
  }

  /** Rules appended one by one decide in their order what has run off the end. */
  lemma {:induction false} RulesBehind(t: Table, rank: Chain -> nat, pkt: Packet, rules: seq<Rule>,
                                       rs: seq<Rule>, limit: nat)
    requires Ranked(t, rank) && AllBelow(t, rank, limit, rules) && Deciding(rs) && NoRepeats(rs)
    requires forall r :: r in rs ==> r !in rules
    ensures AllBelow(t, rank, limit, EnsuredAll(false, rules, rs))
    ensures RulingBy(t, rank, pkt, EnsuredAll(false, rules, rs), limit)
         == After(RulingBy(t, rank, pkt, rules, limit), false, FirstMatch(rs, pkt))
    decreases |rs|
  {
    if rs != [] {
      var r, more := rs[0], rs[1..];
      assert r in rs;
      RuleBehind(t, rank, pkt, rules, r, limit);
      OneRule(t, rank, pkt, r, limit);
      forall x | x in more ensures x !in rules + [r] {
        var i :| 0 <= i < |more| && more[i] == x;
        assert rs[i + 1] == x;
      }
      RulesBehind(t, rank, pkt, rules + [r], more, limit);
      assert [r][1..] == [];
    }
  }

  /** Rules inserted one by one at the head: the last one inserted decides first. */
  lemma {:induction false} RulesInFront(t: Table, rank: Chain -> nat, pkt: Packet, rules: seq<Rule>,
                                        rs: seq<Rule>, limit: nat)
    requires Ranked(t, rank) && AllBelow(t, rank, limit, rules) && Deciding(rs) && NoRepeats(rs)
    requires forall r :: r in rs ==> r !in rules && r.target == Drop
    ensures AllBelow(t, rank, limit, EnsuredAll(true, rules, rs))
    ensures RulingBy(t, rank, pkt, EnsuredAll(true, rules, rs), limit)
         == After(RulingBy(t, rank, pkt, rules, limit), true, FirstMatch(rs, pkt))
    decreases |rs|
  {
    if rs != [] {
      var r, more := rs[0], rs[1..];
      assert r in rs;
      RuleInFront(t, rank, pkt, r, rules, limit);
      OneRule(t, rank, pkt, r, limit);
      forall x | x in more ensures x !in [r] + rules {
        var i :| 0 <= i < |more| && more[i] == x;
        assert rs[i + 1] == x;
      }
      RulesInFront(t, rank, pkt, [r] + rules, more, limit);
      DropsOnly(more, pkt);
      assert [r][1..] == [];
    }
  }

  lemma {:induction false} DropsOnly(rules: seq<Rule>, pkt: Packet)
    requires forall r :: r in rules ==> r.target == Drop
    ensures Deciding(rules)
    ensures FirstMatch(rules, pkt) == if exists r :: r in rules && Hits(r.cond, pkt) then Final(Dropped) else Through
  {
    if rules != [] {
      assert rules == [rules[0]] + rules[1..];
      DropsOnly(rules[1..], pkt);
    }
  }

  // ---------- One plan ----------

  ghost function PlanDecision(p: Plan, pkt: Packet): Outcome
    requires p.Valid()
  {
    match p
    case ChainPlan(_, body, cond) => if Hits(cond, pkt) then FlatWalk(body, pkt) else Through
    case DirectPlan(rules, _, _) => FirstMatch(rules, pkt)
  }

  predicate InFront(p: Plan) { p.ChainPlan? || p.front }

  /** The rules of the plan are pairwise different, and those put in front drop. */
  predicate Orderly(p: Plan) {
    p.DirectPlan? ==> NoRepeats(p.rules) && (p.front ==> forall r :: r in p.rules ==> r.target == Drop)
  }

  lemma SameRuling(t: Table, t': Table, p: Plan, rank: Chain -> nat, pkt: Packet, rules: seq<Rule>, limit: nat)
    requires Clean({p}, t) && Overlay({p}, t, t') && Ranked(t, rank) && Ranked(t', rank)
    requires AllBelow(t, rank, limit, rules) && AllBelow(t', rank, limit, rules)
    requires forall r :: r in rules && r.target.Jump? ==> r.target.chain != INPUT
    ensures RulingBy(t', rank, pkt, rules, limit) == RulingBy(t, rank, pkt, rules, limit)
  {
    RunsOffSame(t, t', p, rank, pkt, rules, limit);
    WalkOperatorChain({p}, t, t', rank, pkt, rules, limit);
  }

  lemma InstalledOverlay(t: Table, p: Plan)
    requires Clean({p}, t)
    ensures p.Valid() && WellFormed(Apply(t, p)) && Apply(t, p) == Installation(t, p) && Overlay({p}, t, Apply(t, p))
    ensures forall r :: Owns(p, r) ==> r !in t.chains[INPUT]
  {
    assert p in {p} && p.Valid();
    ApplyInstalls(t, p);
    CleanIsOverlay({p}, t);
    CommandsAllowed({p}, p);
    RunAllKeepsOverlay({p}, t, t, ApplyCmds(p));
    assert forall r :: Owns(p, r) ==> Owned({p}, r);
  }

  /** A plan on a ruleset without traces of it adds its decision to what INPUT does, in
      front or behind. */
  lemma PlanDecides(t: Table, p: Plan, pkt: Packet)
    requires Clean({p}, t) && Acyclic(t) && p.Valid() && Orderly(p)
    ensures var t' := Apply(t, p);
            && WellFormed(t') && Acyclic(t')
            && InputRuling(t', pkt) == After(InputRuling(t, pkt), InFront(p), PlanDecision(p, pkt))
  {
    var rank :| Ranked(t, rank);
    var t', up := Apply(t, p), Lift({p}, rank);
    InstalledOverlay(t, p);
    LiftRanks({p}, t, t', rank);
    RulingAnyRank(t, up, pkt);
    RulingAnyRank(t', up, pkt);
    DecidedInPlace(t, t', p, up, pkt);
  }

  lemma DecidedInPlace(t: Table, t': Table, p: Plan, rank: Chain -> nat, pkt: Packet)
    requires Clean({p}, t) && p.Valid() && Orderly(p) && t' == Installation(t, p) && Overlay({p}, t, t')
    requires Ranked(t, rank) && Ranked(t', rank) && forall r :: Owns(p, r) ==> r !in t.chains[INPUT]
    ensures RulingBy(t', rank, pkt, t'.chains[INPUT], rank(INPUT))
         == After(RulingBy(t, rank, pkt, t.chains[INPUT], rank(INPUT)), InFront(p), PlanDecision(p, pkt))
  {
    var rules, limit := t.chains[INPUT], rank(INPUT);
    assert AllBelow(t, rank, limit, rules) && AllBelow(t', rank, limit, t'.chains[INPUT]);
    InputKeeps(t, p);
    assert AllBelow(t', rank, limit, rules);
    SameRuling(t, t', p, rank, pkt, rules, limit);
    match p
    case ChainPlan(c, body, cond) =>
      assert Owns(p, p.JumpRule()) && t'.chains[INPUT] == [p.JumpRule()] + rules;
      assert p.JumpRule() in t'.chains[INPUT] && Below(t', rank, limit, p.JumpRule());
      RuleInFront(t', rank, pkt, p.JumpRule(), rules, limit);
      WalkFlat(t', rank, pkt, body, rank(c));
      assert [p.JumpRule()][1..] == [];
    case DirectPlan(rs, front, _) =>
      assert forall r :: r in rs ==> Owns(p, r);
      if front {
        RulesInFront(t', rank, pkt, rules, rs, limit);
      } else {
        RulesBehind(t', rank, pkt, rules, rs, limit);
      }
  }

  lemma InputKeeps(t: Table, p: Plan)
    requires INPUT in t.chains
    ensures forall r :: r in t.chains[INPUT] ==> r in Installation(t, p).chains[INPUT]
  {
    if p.DirectPlan? { EnsuredAllRules(p.front, t.chains[INPUT], p.rules); }
  }

  // ---------- The thirteen protections ----------

  /** The source networks no packet from outside should carry. */
  function Bogons(): set<Test> {
    {Source(0, 0, 0, 0, 8), Source(10, 0, 0, 0, 8), Source(100, 64, 0, 0, 10), Source(127, 0, 0, 0, 8),
     Source(169, 254, 0, 0, 16), Source(172, 16, 0, 0, 12), Source(192, 0, 0, 0, 24), Source(192, 0, 2, 0, 24),
     Source(192, 168, 0, 0, 16), Source(198, 18, 0, 0, 15), Source(198, 51, 100, 0, 24),
     Source(203, 0, 113, 0, 24), Source(224, 0, 0, 0, 4), Source(240, 0, 0, 0, 4)}
  }

  /** What each protection decides about a packet. */
  ghost function Decision(p: Protection, pkt: Packet): Outcome {
    match p
    case SynFlood =>
      if pkt(Proto(Tcp)) && pkt(Syn) && pkt(HashLimit(30, 10, "syn_flood")) then Final(Dropped) else Through
    case HttpFlood =>
      if pkt(Proto(Tcp)) && pkt(MultiPort([80, 443]))
         && ((pkt(DestPort(80)) && pkt(HashLimit(50, 100, "http_flood")))
             || (pkt(DestPort(443)) && pkt(HashLimit(50, 100, "https_flood"))))
      then Final(Dropped) else Through
    case Slowloris =>
      if pkt(Proto(Tcp)) && (pkt(DestPort(80)) || pkt(DestPort(443))) && pkt(ConnLimit(50)) then Final(Dropped)
      else Through
    case IcmpFlood =>
      if pkt(Proto(Icmp)) && pkt(EchoRequest) then Final(if pkt(Limit(5, 10)) then Accepted else Dropped)
      else Through
    case PortScan =>
      if pkt(Proto(Tcp)) && (pkt(TcpFlags("ALL", "NONE")) || pkt(TcpFlags("ALL", "ALL"))
                             || pkt(TcpFlags("ALL", "FIN,URG,PSH")) || pkt(TcpFlags("SYN,RST", "SYN,RST"))
                             || pkt(TcpFlags("SYN,FIN", "SYN,FIN")))
      then Final(Dropped) else Through
    case BogusTcp =>
      if pkt(CtState("INVALID")) || (pkt(Proto(Tcp)) && pkt(NotSyn) && pkt(CtState("NEW"))) then Final(Dropped)
      else Through
    case ConnectionLimit =>
      if pkt(Proto(Tcp)) && pkt(ConnLimitMask(100, 32)) then Final(Rejected) else Through
    case BogonFilter => if exists x :: x in Bogons() && pkt(x) then Final(Dropped) else Through
    case FragmentProtection => if pkt(Fragment) then Final(Dropped) else Through
    case IpOptions =>
      if pkt(IpOption("ssrr")) || pkt(IpOption("lsrr")) || pkt(IpOption("rr")) || pkt(IpOption("ts"))
      then Final(Dropped) else Through
    case UdpFlood =>
      if pkt(Proto(Udp)) && pkt(HashLimit(50, 100, "udp_flood")) then Final(Dropped) else Through
    case ProtocolFilter =>
      if pkt(Proto(Sctp)) || pkt(Proto(Dccp)) || pkt(Proto(Gre)) then Final(Dropped) else Through
    case DnsAmplification =>
      if pkt(DestPort(53)) && ((pkt(Proto(Udp)) && pkt(HashLimit(5, 10, "dns_amp")))
                               || (pkt(Proto(Tcp)) && pkt(HashLimit(10, 20, "dns_amp_tcp"))))
      then Final(Dropped) else Through
  }

  /** The protections that decide before the operator's rules; the others decide about what
      these let run off. */
  predicate DecidesFirst(p: Protection) {
    p in {SynFlood, HttpFlood, PortScan, BogonFilter, UdpFlood, BogusTcp}
  }

  lemma {:induction false} GuardWalk(conds: seq<Match>, pkt: Packet)
    ensures Flat(DropEach(conds) + [Rule([], Return)])
    ensures FlatWalk(DropEach(conds) + [Rule([], Return)], pkt)
         == if exists m :: m in conds && Hits(m, pkt) then Final(Dropped) else Through
  {
    var rules := DropEach(conds) + [Rule([], Return)];
    if conds == [] {
      assert rules == [Rule([], Return)];
    } else {
      GuardWalk(conds[1..], pkt);
      assert rules[1..] == DropEach(conds[1..]) + [Rule([], Return)];
      assert conds == [conds[0]] + conds[1..];
    }
  }

  lemma DropEachMatch(conds: seq<Match>, pkt: Packet)
    ensures Deciding(DropEach(conds))
    ensures FirstMatch(DropEach(conds), pkt)
         == if exists m :: m in conds && Hits(m, pkt) then Final(Dropped) else Through
  {
    var rules := DropEach(conds);
    DropsOnly(rules, pkt);
    if m :| m in conds && Hits(m, pkt) {
      var i :| 0 <= i < |conds| && conds[i] == m;
      assert rules[i].cond == m && rules[i] in rules;
    }
  }

  lemma HitsOne(a: Test, pkt: Packet)
    ensures Hits([a], pkt) <==> pkt(a)
  {
    assert a in [a];
  }

  lemma HitsTwo(a: Test, b: Test, pkt: Packet)
    ensures Hits([a, b], pkt) <==> pkt(a) && pkt(b)
  {
    assert a in [a, b] && b in [a, b];
  }

  lemma HitsThree(a: Test, b: Test, c: Test, pkt: Packet)
    ensures Hits([a, b, c], pkt) <==> pkt(a) && pkt(b) && pkt(c)
  {
    assert a in [a, b, c] && b in [a, b, c] && c in [a, b, c];
  }

  ghost predicate SomeHit(conds: seq<Match>, pkt: Packet) {
    exists i :: 0 <= i < |conds| && Hits(conds[i], pkt)
  }

  lemma SomeHitIn(conds: seq<Match>, pkt: Packet)
    ensures SomeHit(conds, pkt) <==> exists m :: m in conds && Hits(m, pkt)
  {
  }

  lemma HitOfOne(a: Match, pkt: Packet)
    ensures SomeHit([a], pkt) <==> Hits(a, pkt)
  {
    assert [a][0] == a;
  }

  lemma HitOfTwo(a: Match, b: Match, pkt: Packet)
    ensures SomeHit([a, b], pkt) <==> Hits(a, pkt) || Hits(b, pkt)
  {
    assert [a, b][0] == a && [a, b][1] == b;
  }

  lemma HitOfMore(a: Match, rest: seq<Match>, pkt: Packet)
    ensures SomeHit([a] + rest, pkt) <==> Hits(a, pkt) || SomeHit(rest, pkt)
  {
    var all := [a] + rest;
    assert all[0] == a && forall i :: 0 <= i < |rest| ==> all[i + 1] == rest[i];
    if SomeHit(all, pkt) && !Hits(a, pkt) {
      var i :| 0 <= i < |all| && Hits(all[i], pkt);
      assert rest[i - 1] == all[i];
    }
  }

  function Singles(tests: seq<Test>): seq<Match> {
    seq(|tests|, i requires 0 <= i < |tests| => [tests[i]])
  }

  /** A list of single tests. */
  lemma HitOfSingles(tests: seq<Test>, pkt: Packet)
    ensures SomeHit(Singles(tests), pkt) <==> exists x :: x in tests && pkt(x)
  {
    forall i | 0 <= i < |tests| ensures Hits(Singles(tests)[i], pkt) <==> pkt(tests[i]) {
      HitsOne(tests[i], pkt);
    }
    if x :| x in tests && pkt(x) {
      var i :| 0 <= i < |tests| && tests[i] == x;
      assert Hits(Singles(tests)[i], pkt);
    }
  }

  lemma FloodConds(pkt: Packet)
    ensures SomeHit(Conds(SynFlood), pkt) <==> pkt(Proto(Tcp)) && pkt(Syn) && pkt(HashLimit(30, 10, "syn_flood"))
    ensures SomeHit(Conds(UdpFlood), pkt) <==> pkt(Proto(Udp)) && pkt(HashLimit(50, 100, "udp_flood"))
  {
    HitOfOne(Conds(SynFlood)[0], pkt);
    HitsThree(Proto(Tcp), Syn, HashLimit(30, 10, "syn_flood"), pkt);
    HitOfOne(Conds(UdpFlood)[0], pkt);
    HitsTwo(Proto(Udp), HashLimit(50, 100, "udp_flood"), pkt);
  }

  lemma HttpConds(pkt: Packet)
    ensures SomeHit(Conds(HttpFlood), pkt)
       <==> pkt(Proto(Tcp)) && ((pkt(DestPort(80)) && pkt(HashLimit(50, 100, "http_flood")))
                                || (pkt(DestPort(443)) && pkt(HashLimit(50, 100, "https_flood"))))
  {
    HitOfTwo(Conds(HttpFlood)[0], Conds(HttpFlood)[1], pkt);
    HitsThree(Proto(Tcp), DestPort(80), HashLimit(50, 100, "http_flood"), pkt);
    HitsThree(Proto(Tcp), DestPort(443), HashLimit(50, 100, "https_flood"), pkt);
  }

  lemma SlowlorisConds(pkt: Packet)
    ensures SomeHit(Conds(Slowloris), pkt)
       <==> pkt(Proto(Tcp)) && (pkt(DestPort(80)) || pkt(DestPort(443))) && pkt(ConnLimit(50))
  {
    HitOfTwo(Conds(Slowloris)[0], Conds(Slowloris)[1], pkt);
    HitsThree(Proto(Tcp), DestPort(80), ConnLimit(50), pkt);
    HitsThree(Proto(Tcp), DestPort(443), ConnLimit(50), pkt);
  }

  lemma DnsConds(pkt: Packet)
    ensures SomeHit(Conds(DnsAmplification), pkt)
       <==> pkt(DestPort(53)) && ((pkt(Proto(Udp)) && pkt(HashLimit(5, 10, "dns_amp")))
                                  || (pkt(Proto(Tcp)) && pkt(HashLimit(10, 20, "dns_amp_tcp"))))
  {
    HitOfTwo(Conds(DnsAmplification)[0], Conds(DnsAmplification)[1], pkt);
    HitsThree(Proto(Udp), DestPort(53), HashLimit(5, 10, "dns_amp"), pkt);
    HitsThree(Proto(Tcp), DestPort(53), HashLimit(10, 20, "dns_amp_tcp"), pkt);
  }

  lemma BogusConds(pkt: Packet)
    ensures SomeHit(Conds(BogusTcp), pkt)
       <==> pkt(CtState("INVALID")) || (pkt(Proto(Tcp)) && pkt(NotSyn) && pkt(CtState("NEW")))
  {
    HitOfTwo(Conds(BogusTcp)[0], Conds(BogusTcp)[1], pkt);
    HitsOne(CtState("INVALID"), pkt);
    HitsThree(Proto(Tcp), NotSyn, CtState("NEW"), pkt);
  }

  function OfTcp(flags: seq<Test>): seq<Match> {
    seq(|flags|, i requires 0 <= i < |flags| => [Proto(Tcp), flags[i]])
  }

  lemma HitOfTcp(flags: seq<Test>, pkt: Packet)
    ensures SomeHit(OfTcp(flags), pkt) <==> pkt(Proto(Tcp)) && exists x :: x in flags && pkt(x)
  {
    forall i | 0 <= i < |flags| ensures Hits(OfTcp(flags)[i], pkt) <==> pkt(Proto(Tcp)) && pkt(flags[i]) {
      HitsTwo(Proto(Tcp), flags[i], pkt);
    }
    if pkt(Proto(Tcp)) && exists x :: x in flags && pkt(x) {
      var x :| x in flags && pkt(x);
      var i :| 0 <= i < |flags| && flags[i] == x;
      assert Hits(OfTcp(flags)[i], pkt);
    }
  }

  lemma ScanConds(pkt: Packet)
    ensures SomeHit(Conds(PortScan), pkt)
       <==> pkt(Proto(Tcp)) && (pkt(TcpFlags("ALL", "NONE")) || pkt(TcpFlags("ALL", "ALL"))
                                || pkt(TcpFlags("ALL", "FIN,URG,PSH")) || pkt(TcpFlags("SYN,RST", "SYN,RST"))
                                || pkt(TcpFlags("SYN,FIN", "SYN,FIN")))
  {
    var flags := [TcpFlags("ALL", "NONE"), TcpFlags("ALL", "ALL"), TcpFlags("ALL", "FIN,URG,PSH"),
                  TcpFlags("SYN,RST", "SYN,RST"), TcpFlags("SYN,FIN", "SYN,FIN")];
    assert Conds(PortScan) == OfTcp(flags);
    HitOfTcp(flags, pkt);
    assert flags[0] in flags && flags[1] in flags && flags[2] in flags && flags[3] in flags && flags[4] in flags;
  }

  lemma SingleConds(pkt: Packet)
    ensures SomeHit(Conds(FragmentProtection), pkt) <==> pkt(Fragment)
    ensures SomeHit(Conds(ProtocolFilter), pkt) <==> pkt(Proto(Sctp)) || pkt(Proto(Dccp)) || pkt(Proto(Gre))
    ensures SomeHit(Conds(IpOptions), pkt)
       <==> pkt(IpOption("ssrr")) || pkt(IpOption("lsrr")) || pkt(IpOption("rr")) || pkt(IpOption("ts"))
  {
    var protocols := [Proto(Sctp), Proto(Dccp), Proto(Gre)];
    var options := [IpOption("ssrr"), IpOption("lsrr"), IpOption("rr"), IpOption("ts")];
    assert Conds(FragmentProtection) == Singles([Fragment]);
    assert Conds(ProtocolFilter) == Singles(protocols) && Conds(IpOptions) == Singles(options);
    HitOfSingles([Fragment], pkt);
    HitOfSingles(protocols, pkt);
    HitOfSingles(options, pkt);
    assert protocols[0] in protocols && protocols[1] in protocols && protocols[2] in protocols;
    assert options[0] in options && options[1] in options && options[2] in options && options[3] in options;
  }

  lemma BogonConds(pkt: Packet)
    ensures SomeHit(Conds(BogonFilter), pkt) <==> exists x :: x in Bogons() && pkt(x)
  {
    var sources := [
      Source(0, 0, 0, 0, 8), Source(10, 0, 0, 0, 8), Source(100, 64, 0, 0, 10), Source(127, 0, 0, 0, 8),
      Source(169, 254, 0, 0, 16), Source(172, 16, 0, 0, 12), Source(192, 0, 0, 0, 24), Source(192, 0, 2, 0, 24),
      Source(192, 168, 0, 0, 16), Source(198, 18, 0, 0, 15), Source(198, 51, 100, 0, 24),
      Source(203, 0, 113, 0, 24), Source(224, 0, 0, 0, 4), Source(240, 0, 0, 0, 4)];
    assert Conds(BogonFilter) == Singles(sources);
    assert forall x :: x in sources <==> x in Bogons();
    HitOfSingles(sources, pkt);
  }

  lemma GuardDecides(p: Protection, pkt: Packet)
    requires p in {SynFlood, HttpFlood, PortScan, BogonFilter, UdpFlood}
    ensures PlanOf(p).ChainPlan? && PlanOf(p).Valid()
    ensures PlanDecision(PlanOf(p), pkt)
         == if Hits(PlanOf(p).cond, pkt) && SomeHit(Conds(p), pkt) then Final(Dropped) else Through
  {
    PlansAreValid(p);
    GuardWalk(Conds(p), pkt);
    SomeHitIn(Conds(p), pkt);
  }

  lemma DropsDecide(p: Protection, pkt: Packet)
    requires p in {Slowloris, BogusTcp, FragmentProtection, IpOptions, ProtocolFilter, DnsAmplification}
    ensures PlanOf(p).DirectPlan? && PlanOf(p).Valid()
    ensures PlanDecision(PlanOf(p), pkt) == if SomeHit(Conds(p), pkt) then Final(Dropped) else Through
  {
    PlansAreValid(p);
    DropEachMatch(Conds(p), pkt);
    SomeHitIn(Conds(p), pkt);
  }

  lemma JumpConds(pkt: Packet)
    ensures Hits(PlanOf(SynFlood).cond, pkt) <==> pkt(Proto(Tcp)) && pkt(Syn)
    ensures Hits(PlanOf(HttpFlood).cond, pkt) <==> pkt(Proto(Tcp)) && pkt(MultiPort([80, 443]))
    ensures Hits(PlanOf(PortScan).cond, pkt) && Hits(PlanOf(BogonFilter).cond, pkt)
    ensures Hits(PlanOf(UdpFlood).cond, pkt) <==> pkt(Proto(Udp))
  {
    HitsTwo(Proto(Tcp), Syn, pkt);
    HitsTwo(Proto(Tcp), MultiPort([80, 443]), pkt);
    HitsOne(Proto(Udp), pkt);
  }

  lemma OtherDecisions(pkt: Packet)
    ensures PlanOf(IcmpFlood).Valid() && PlanOf(ConnectionLimit).Valid()
    ensures PlanDecision(PlanOf(IcmpFlood), pkt) == Decision(IcmpFlood, pkt)
    ensures PlanDecision(PlanOf(ConnectionLimit), pkt) == Decision(ConnectionLimit, pkt)
  {
    PlansAreValid(IcmpFlood);
    PlansAreValid(ConnectionLimit);
    HitsThree(Proto(Icmp), EchoRequest, Limit(5, 10), pkt);
    HitsTwo(Proto(Icmp), EchoRequest, pkt);
    HitsTwo(Proto(Tcp), ConnLimitMask(100, 32), pkt);
    var icmp, limit := PlanOf(IcmpFlood).rules, PlanOf(ConnectionLimit).rules;
    assert icmp == [EchoAccepted, Rule([Proto(Icmp), EchoRequest], Drop)];
    assert icmp[1..] == [icmp[1]] && icmp[1..][1..] == [];
    assert limit == [Rule([Proto(Tcp), ConnLimitMask(100, 32)], Reject)] && limit[1..] == [];
  }

  /** The command lists of the thirteen protections decide as said. */
  lemma PlansDecide(p: Protection, pkt: Packet)
    ensures PlanOf(p).Valid() && PlanDecision(PlanOf(p), pkt) == Decision(p, pkt)
    ensures InFront(PlanOf(p)) <==> DecidesFirst(p)
  {
    if p in {SynFlood, HttpFlood, PortScan, BogonFilter, UdpFlood} {
      GuardDecides(p, pkt);
      JumpConds(pkt);
    } else if p in {IcmpFlood, ConnectionLimit} {
      OtherDecisions(pkt);
    } else {
      DropsDecide(p, pkt);
    }
    CondsDecide(p, pkt);
  }

  lemma CondsDecide(p: Protection, pkt: Packet)
    ensures p == PortScan || p == BogonFilter ==>
              (Decision(p, pkt) == if SomeHit(Conds(p), pkt) then Final(Dropped) else Through)
    ensures p in {SynFlood, UdpFlood, HttpFlood} ==>
              (Decision(p, pkt)
               == if Hits(PlanOf(p).cond, pkt) && SomeHit(Conds(p), pkt) then Final(Dropped) else Through)
    ensures p in {Slowloris, BogusTcp, FragmentProtection, IpOptions, ProtocolFilter, DnsAmplification} ==>
              (Decision(p, pkt) == if SomeHit(Conds(p), pkt) then Final(Dropped) else Through)
  {
    match p
    case SynFlood => FloodConds(pkt); JumpConds(pkt);
    case UdpFlood => FloodConds(pkt); JumpConds(pkt);
    case HttpFlood => HttpConds(pkt); JumpConds(pkt);
    case PortScan => ScanConds(pkt);
    case BogonFilter => BogonConds(pkt);
    case Slowloris => SlowlorisConds(pkt);
    case BogusTcp => BogusConds(pkt);
    case DnsAmplification => DnsConds(pkt);
    case IcmpFlood =>
    case ConnectionLimit =>
    case _ => SingleConds(pkt);
  }

  lemma PlansAreOrderly(p: Protection)
    ensures Orderly(PlanOf(p))
  {
  }

  /** Any of the thirteen protections, applied to a ruleset without traces of it, decides
      about every packet of INPUT as said: before the operator's rules, or after them. */
  lemma ProtectionDecides(t: Table, p: Protection, pkt: Packet)
    requires Clean({PlanOf(p)}, t) && Acyclic(t)
    ensures var t' := Apply(t, PlanOf(p));
            && WellFormed(t') && Acyclic(t')
            && InputRuling(t', pkt) == After(InputRuling(t, pkt), DecidesFirst(p), Decision(p, pkt))
  {
    PlansDecide(p, pkt);
    PlansAreOrderly(p);
    PlanDecides(t, PlanOf(p), pkt);
  }

  /** In terms of verdicts: what a protection decides counts, if it decides first or the
      packet ran off the end of INPUT; every other packet keeps its verdict. */
  lemma ProtectionVerdicts(t: Table, p: Protection, hook: Chain, pkt: Packet)
    requires Clean({PlanOf(p)}, t) && Acyclic(t) && hook in t.policy
    ensures var t' := Apply(t, PlanOf(p));
            && WellFormed(t') && Acyclic(t')
            && VerdictOf(t', hook, pkt)
            == if hook == INPUT && Decision(p, pkt).Final? && (DecidesFirst(p) || InputRuling(t, pkt).RanOff?)
               then Decision(p, pkt).verdict else VerdictOf(t, hook, pkt)
  {
    var t' := Apply(t, PlanOf(p));
    ProtectionDecides(t, p, pkt);
    InstalledOverlay(t, PlanOf(p));
    if hook == INPUT {
      VerdictOfRuling(t, pkt);
      VerdictOfRuling(t', pkt);
    } else {
      OtherHooksUntouched({PlanOf(p)}, t, t', hook, pkt);
    }
  }

  // ---------- Lists of protections ----------

  function RulingAfter(r: Ruling, ps: seq<Protection>, decide: Protection -> Outcome): Ruling
    decreases |ps|
  {
    if ps == [] then r else RulingAfter(After(r, DecidesFirst(ps[0]), decide(ps[0])), ps[1..], decide)
  }

  ghost function DecisionsOn(pkt: Packet): Protection -> Outcome { p => Decision(p, pkt) }

  lemma StillClean(t: Table, P: Plan, Q: Plan)
    requires Clean({P}, t) && Clean({Q}, t)
    requires (forall r :: Owns(P, r) ==> !Owns(Q, r)) && (P.ChainPlan? && Q.ChainPlan? ==> P.chain != Q.chain)
    ensures Clean({Q}, Apply(t, P))
  {
    var t' := Apply(t, P);
    InstalledOverlay(t, P);
    assert Q in {Q} && Q.Valid();
    forall r | r in t'.chains[INPUT] ensures !Owned({Q}, r) {
      InstalledRules(t, P, r);
      assert r in t.chains[INPUT] ==> !Owned({Q}, r);
    }
    forall c | OwnedChain({Q}, c) ensures c !in t'.chains {
      assert c !in t.chains && Q.ChainPlan? && Q.chain == c;
    }
  }

  lemma InstalledRules(t: Table, p: Plan, r: Rule)
    requires INPUT in t.chains
    ensures r in Installation(t, p).chains[INPUT] <==> r in t.chains[INPUT] || Owns(p, r)
  {
    if p.DirectPlan? { EnsuredAllRules(p.front, t.chains[INPUT], p.rules); }
  }

  /** What applying different protections one after the other makes of every packet of
      INPUT: the last applied of those that decide first, then the operator's rules, then
      the others in the order of their application. */
  lemma {:induction false} ListDecides(t: Table, ps: seq<Protection>, pkt: Packet)
    requires Acyclic(t) && INPUT in t.chains && Untouched(t, ps) && Different(ps)
    ensures var t' := ApplyAll(t, PlanList(ps));
            && Acyclic(t') && INPUT in t'.chains
            && InputRuling(t', pkt) == RulingAfter(InputRuling(t, pkt), ps, DecisionsOn(pkt))
    decreases |ps|
  {
    if ps != [] {
      var p, rest := ps[0], ps[1..];
      assert p in ps && Untouched(t, [p]);
      ProtectionDecides(t, p, pkt);
      RestStaysUntouched(t, ps);
      ListDecides(Apply(t, PlanOf(p)), rest, pkt);
      ApplyFirst(t, ps);
    }
  }

  /** None of the protections has left a trace in t. */
  ghost predicate Untouched(t: Table, ps: seq<Protection>) {
    forall p :: p in ps ==> Clean({PlanOf(p)}, t)
  }

  predicate Different(ps: seq<Protection>) {
    forall i, j :: 0 <= i < j < |ps| ==> ps[i] != ps[j]
  }

  lemma ApplyFirst(t: Table, ps: seq<Protection>)
    requires ps != []
    ensures ApplyAll(t, PlanList(ps)) == ApplyAll(Apply(t, PlanOf(ps[0])), PlanList(ps[1..]))
  {
    assert PlanList(ps)[1..] == PlanList(ps[1..]);
  }

  lemma RestStaysUntouched(t: Table, ps: seq<Protection>)
    requires ps != [] && Untouched(t, ps) && Different(ps)
    ensures Untouched(Apply(t, PlanOf(ps[0])), ps[1..]) && Different(ps[1..])
  {
    assert forall i :: 0 <= i < |ps[1..]| ==> ps[1..][i] == ps[i + 1];
    forall q | q in ps[1..] ensures Clean({PlanOf(q)}, Apply(t, PlanOf(ps[0]))) {
      var i :| 0 <= i < |ps[1..]| && ps[1..][i] == q;
      assert ps[i + 1] == q && q in ps && ps[0] in ps && ps[0] != ps[i + 1];
      ProtectionsApart(ps[0], q);
      StillClean(t, PlanOf(ps[0]), PlanOf(q));
    }
  }

  /** So for a request of different protections whose commands all reach the host. */
  lemma RequestDecides(t: Table, ps: seq<Protection>, fates: seq<seq<Fate>>, pkt: Packet)
    requires WellFormed(t) && Acyclic(t) && Untouched(t, ps) && Different(ps)
    requires Fits(KnownAll(ps), fates) && forall fs :: fs in fates ==> AllDelivered(fs)
    ensures var t' := RunRequests(t, KnownAll(ps), fates);
            var r := RulingAfter(InputRuling(t, pkt), ps, DecisionsOn(pkt));
            && WellFormed(t') && Acyclic(t')
            && VerdictOf(t', INPUT, pkt) == if r.Decided? then r.verdict else t.policy[INPUT]
  {
    var t' := RunRequests(t, KnownAll(ps), fates);
    RequestsApplyAll(t, ps, fates);
    ListDecides(t, ps, pkt);
    PlanListCompatible(ps);
    ListOutfits(t, PlanList(ps));
    VerdictOfRuling(t', pkt);
  }
}
