/** Exactly when a list of protections tightens the firewall, and what is let in when it
    does not. */
module Coverage {
  import opened Netfilter
  import opened Plans
  import opened PlanEffects
  import opened Tightening

  // ---------- Exactly when a list tightens ----------

  /** The rulesets that differ in the built-in chains and their policies alone. */
  ghost predicate SameUserChains(t: Table, u: Table) {
    forall c :: c !in {INPUT, FORWARD, OUTPUT} ==>
      (c in t.chains <==> c in u.chains) && (c in t.chains ==> u.chains[c] == t.chains[c])
  }

  /** Installing the list accepts no packet that was refused before. */
  ghost predicate Tightens(t: Table, ps: seq<Plan>)
    requires WellFormed(t) && Acyclic(t)
  {
    var t' := ApplyAll(t, ps);
    && WellFormed(t') && Acyclic(t') && t'.policy == t.policy
    && forall hook, pkt :: hook in t.policy && VerdictOf(t, hook, pkt) != Accepted ==>
         VerdictOf(t', hook, pkt) != Accepted
  }

  /** It does so whatever the built-in chains hold and whatever their policies are. */
  ghost predicate AlwaysTightens(t: Table, ps: seq<Plan>) {
    forall u :: WellFormed(u) && Acyclic(u) && SameUserChains(t, u) ==> Tightens(u, ps)
  }

  lemma {:induction false} WalkUserChain(t: Table, u: Table, rank: Chain -> nat, rank': Chain -> nat,
                                         pkt: Packet, rules: seq<Rule>, limit: nat, limit': nat)
    requires WellFormed(t) && SameUserChains(t, u)
    requires Ranked(t, rank) && AllBelow(t, rank, limit, rules)
    requires Ranked(u, rank') && AllBelow(u, rank', limit', rules)
    requires forall r :: r in rules && r.target.Jump? ==> r.target.chain !in t.policy
    ensures Walk(u, rank', pkt, rules, limit') == Walk(t, rank, pkt, rules, limit)
    decreases limit, |rules|
  {
    if rules != [] {
      var r := rules[0];
      assert Below(t, rank, limit, r) && Below(u, rank', limit', r);
      WalkUserChain(t, u, rank, rank', pkt, rules[1..], limit, limit');
      if r.target.Jump? {
        var d := r.target.chain;
        WalkUserChain(t, u, rank, rank', pkt, t.chains[d], rank(d), rank'(d));
      }
    }
  }

  lemma SameCoverage(t: Table, u: Table, p: Plan)
    requires WellFormed(t) && Acyclic(t) && Acyclic(u) && SameUserChains(t, u) && p.Valid()
    ensures Covered(t, p) <==> Covered(u, p)
  {
    if p.ChainPlan? && p.chain in t.chains {
      var c := p.chain;
      var rank :| Ranked(t, rank);
      var rank' :| Ranked(u, rank');
      forall pkt ensures ChainOutcome(u, c, pkt) == ChainOutcome(t, c, pkt) {
        ChainAnyRank(t, rank, c, pkt);
        ChainAnyRank(u, rank', c, pkt);
        WalkUserChain(t, u, rank, rank', pkt, t.chains[c], rank(c), rank'(c));
      }
    }
  }

  /** The user chains of t with nothing in the built-in ones but rules in one of them. */
  function Probe(t: Table, hook: Chain, rules: seq<Rule>, policy: Verdict): Table {
    Table(t.chains[INPUT := []][FORWARD := []][OUTPUT := []][hook := rules],
          map[INPUT := policy, FORWARD := policy, OUTPUT := policy])
  }

  ghost function ProbeRank(rank: Chain -> nat, hook: Chain, top: nat): Chain -> nat {
    d => if d == hook then top else rank(d)
  }

  lemma ProbeWellFormed(t: Table, hook: Chain, rules: seq<Rule>, policy: Verdict)
    requires WellFormed(t) && hook in {INPUT, FORWARD, OUTPUT}
    requires forall r :: r in rules && r.target.Jump? ==> r.target.chain in t.chains && r.target.chain !in t.policy
    ensures WellFormed(Probe(t, hook, rules, policy)) && SameUserChains(t, Probe(t, hook, rules, policy))
  {
  }

  lemma ProbeRanked(t: Table, rank: Chain -> nat, hook: Chain, rules: seq<Rule>, top: nat, policy: Verdict)
    requires WellFormed(t) && Ranked(t, rank) && hook in {INPUT, FORWARD, OUTPUT}
    requires forall r :: r in rules && r.target.Jump? ==>
               r.target.chain in t.chains && r.target.chain !in t.policy && rank(r.target.chain) < top
    ensures var u := Probe(t, hook, rules, policy);
            WellFormed(u) && SameUserChains(t, u) && Ranked(u, ProbeRank(rank, hook, top)) && Acyclic(u)
  {
    var u, rank' := Probe(t, hook, rules, policy), ProbeRank(rank, hook, top);
    ProbeWellFormed(t, hook, rules, policy);
    forall c | c in u.chains ensures AllBelow(u, rank', rank'(c), u.chains[c]) {
      if c !in t.policy {
        UserChainBelow(t, u, rank, hook, top, c);
      }
    }
    assert Ranked(u, rank');
  }

  lemma UserChainBelow(t: Table, u: Table, rank: Chain -> nat, hook: Chain, top: nat, c: Chain)
    requires WellFormed(t) && Ranked(t, rank) && SameUserChains(t, u) && hook in t.policy
    requires c in t.chains && c !in t.policy
    ensures c in u.chains && AllBelow(u, ProbeRank(rank, hook, top), ProbeRank(rank, hook, top)(c), u.chains[c])
  {
    assert AllBelow(t, rank, rank(c), t.chains[c]);
    forall r | r in t.chains[c] ensures Below(u, ProbeRank(rank, hook, top), rank(c), r) {
      assert Below(t, rank, rank(c), r);
    }
  }

  /** A FORWARD that jumps to a chain does with a packet what the chain does. */
  lemma ProbeVerdict(t: Table, c: Chain, pkt: Packet)
    requires WellFormed(t) && Acyclic(t) && c in t.chains && c !in t.policy
    ensures var u := Probe(t, FORWARD, [Rule([], Jump(c))], Accepted);
            && WellFormed(u) && Acyclic(u) && SameUserChains(t, u)
            && (Refused(ChainOutcome(t, c, pkt)) ==> VerdictOf(u, FORWARD, pkt) != Accepted)
  {
    var jump := [Rule([], Jump(c))];
    var rank :| Ranked(t, rank);
    var u, up := Probe(t, FORWARD, jump, Accepted), ProbeRank(rank, FORWARD, rank(c) + 1);
    ProbeRanked(t, rank, FORWARD, jump, rank(c) + 1, Accepted);
    assert Walk(u, up, pkt, u.chains[c], up(c)) == ChainOutcome(t, c, pkt) by {
      ChainAnyRank(t, rank, c, pkt);
      assert AllBelow(t, rank, rank(c), t.chains[c]) && AllBelow(u, up, up(c), u.chains[c]);
      WalkUserChain(t, u, rank, up, pkt, t.chains[c], rank(c), up(c));
    }
    LoneJump(u, up, pkt, c, up(FORWARD));
    VerdictAnyRank(u, up, FORWARD, pkt);
  }

  /** Once the list is installed, a packet that the plan's rules let pass goes through. */
  lemma ProbePassed(u: Table, ps: seq<Plan>, p: Plan, pkt: Packet)
    requires WellFormed(u) && Acyclic(u) && Compatible(ps) && p in ps && p.ChainPlan?
    requires u.chains[FORWARD] == [Rule([], Jump(p.chain))] && u.policy[FORWARD] == Accepted
    requires !Refused(FlatWalk(p.body, pkt))
    ensures var u' := ApplyAll(u, ps);
            WellFormed(u') && Acyclic(u') && u'.policy == u.policy && VerdictOf(u', FORWARD, pkt) == Accepted
  {
    var c, u' := p.chain, ApplyAll(u, ps);
    ListOutfits(u, ps);
    var rank :| Ranked(u, rank);
    var over := Over(ps, rank);
    OutfittedRanked(u, u', ps, rank);
    HooksAreNoPlanChains(ps, FORWARD);
    assert u'.chains[FORWARD] == u.chains[FORWARD] && u'.chains[c] == p.body;
    DropsRefuse(p.body, pkt);
    WalkFlat(u', over, pkt, p.body, over(c));
    assert HasChain(ps, c) && over(c) < over(FORWARD);
    LoneJump(u', over, pkt, c, over(FORWARD));
    VerdictAnyRank(u', over, FORWARD, pkt);
  }

  /** A packet the present chain refuses and the plan's rules let pass gets through a
      FORWARD that jumps to the chain, once the list is installed. */
  lemma UncoveredIsLost(t: Table, ps: seq<Plan>, p: Plan, pkt: Packet)
    requires WellFormed(t) && Acyclic(t) && Compatible(ps) && p in ps && p.ChainPlan? && p.chain in t.chains
    requires Refused(ChainOutcome(t, p.chain, pkt)) && !Refused(FlatWalk(p.body, pkt))
    ensures !AlwaysTightens(t, ps)
  {
    var u := Probe(t, FORWARD, [Rule([], Jump(p.chain))], Accepted);
    assert p.Valid();
    ProbeVerdict(t, p.chain, pkt);
    ProbePassed(u, ps, p, pkt);
    assert !Tightens(u, ps);
  }

  lemma LoneJump(t: Table, rank: Chain -> nat, pkt: Packet, c: Chain, limit: nat)
    requires Ranked(t, rank) && c in t.chains && rank(c) < limit
    ensures AllBelow(t, rank, limit, [Rule([], Jump(c))])
    ensures Walk(t, rank, pkt, [Rule([], Jump(c))], limit) == Walk(t, rank, pkt, t.chains[c], rank(c))
  {
    assert [Rule([], Jump(c))][1..] == [];
  }

  /** A list of restrictive protections tightens every ruleset with these user chains
      exactly if it covers what their chains hold now. */
  lemma TightensExactly(t: Table, ps: seq<Plan>)
    requires WellFormed(t) && Acyclic(t) && Compatible(ps) && forall p :: p in ps ==> p.Restrictive()
    ensures AlwaysTightens(t, ps) <==> AllCovered(t, ps)
  {
    if AllCovered(t, ps) {
      forall u | WellFormed(u) && Acyclic(u) && SameUserChains(t, u) ensures Tightens(u, ps) {
        CoveredTightens(t, u, ps);
      }
    } else {
      var p :| p in ps && !Covered(t, p);
      var pkt :| Refused(ChainOutcome(t, p.chain, pkt)) && !Refused(FlatWalk(p.body, pkt));
      UncoveredIsLost(t, ps, p, pkt);
    }
  }

  lemma CoveredTightens(t: Table, u: Table, ps: seq<Plan>)
    requires WellFormed(t) && Acyclic(t) && Compatible(ps) && AllCovered(t, ps)
    requires WellFormed(u) && Acyclic(u) && SameUserChains(t, u)
    requires forall p :: p in ps ==> p.Restrictive()
    ensures Tightens(u, ps)
  {
    forall p | p in ps ensures Covered(u, p) {
      SameCoverage(t, u, p);
    }
    forall hook, pkt | hook in u.policy
      ensures var u' := ApplyAll(u, ps);
              && WellFormed(u') && Acyclic(u') && u'.policy == u.policy
              && (VerdictOf(u, hook, pkt) != Accepted ==> VerdictOf(u', hook, pkt) != Accepted)
    {
      ListTightens(u, ps, hook, pkt);
    }
    ListTightens(u, ps, INPUT, x => false);
  }

  // ---------- A plan that accepts ----------

  /** A rule that lets the packet pass on: it does not match, or jumps to a chain that
      hands the packet back. */
  ghost predicate Idle(t: Table, rank: Chain -> nat, pkt: Packet, r: Rule)
    requires Ranked(t, rank)
  {
    Hits(r.cond, pkt) ==>
      && r.target.Jump? && r.target.chain in t.chains
      && Walk(t, rank, pkt, t.chains[r.target.chain], rank(r.target.chain)).Through?
  }

  lemma {:induction false} IdleAtEnd(t: Table, rank: Chain -> nat, pkt: Packet, rules: seq<Rule>, r: Rule, limit: nat)
    requires Ranked(t, rank) && AllBelow(t, rank, limit, rules) && Below(t, rank, limit, r)
    requires Idle(t, rank, pkt, r) && RunsOff(t, rank, pkt, rules, limit)
    ensures AllBelow(t, rank, limit, rules + [r]) && RunsOff(t, rank, pkt, rules + [r], limit)
    decreases |rules|
  {
    if rules == [] {
      assert rules + [r] == [r] && [r][1..] == [];
    } else {
      assert Below(t, rank, limit, rules[0]);
      assert (rules + [r])[1..] == rules[1..] + [r];
      IdleAtEnd(t, rank, pkt, rules[1..], r, limit);
    }
  }

  /** An idle rule changes nothing, wherever it is put. */
  lemma IdleEnsured(t: Table, rank: Chain -> nat, pkt: Packet, front: bool, rules: seq<Rule>, r: Rule, limit: nat)
    requires Ranked(t, rank) && AllBelow(t, rank, limit, rules) && Below(t, rank, limit, r) && Idle(t, rank, pkt, r)
    ensures var after := Ensured(front, rules, r);
            && AllBelow(t, rank, limit, after)
            && Walk(t, rank, pkt, after, limit) == Walk(t, rank, pkt, rules, limit)
            && (RunsOff(t, rank, pkt, rules, limit) ==> RunsOff(t, rank, pkt, after, limit))
  {
    if r !in rules {
      if front {
        assert ([r] + rules)[1..] == rules;
      } else {
        WalkAppended(t, rank, pkt, rules, r, limit);
        assert [r][1..] == [];
        if RunsOff(t, rank, pkt, rules, limit) { IdleAtEnd(t, rank, pkt, rules, r, limit); }
      }
    }
  }

  lemma {:induction false} IdleEnsuredAll(t: Table, rank: Chain -> nat, pkt: Packet, front: bool,
                                          rules: seq<Rule>, rs: seq<Rule>, limit: nat)
    requires Ranked(t, rank) && AllBelow(t, rank, limit, rules)
    requires forall r :: r in rs ==> Below(t, rank, limit, r) && Idle(t, rank, pkt, r)
    ensures var after := EnsuredAll(front, rules, rs);
            && AllBelow(t, rank, limit, after)
            && Walk(t, rank, pkt, after, limit) == Walk(t, rank, pkt, rules, limit)
            && (RunsOff(t, rank, pkt, rules, limit) ==> RunsOff(t, rank, pkt, after, limit))
    decreases |rs|
  {
    if rs != [] {
      assert rs[0] in rs;
      IdleEnsured(t, rank, pkt, front, rules, rs[0], limit);
      IdleEnsuredAll(t, rank, pkt, front, Ensured(front, rules, rs[0]), rs[1..], limit);
    }
  }

  /** No rule of the plan decides about the packet. */
  ghost predicate Ignores(p: Plan, pkt: Packet)
    requires p.Valid()
  {
    match p
    case ChainPlan(_, body, _) => FlatWalk(body, pkt).Through?
    case DirectPlan(rules, _, _) => forall r :: r in rules ==> !Hits(r.cond, pkt)
  }

  /** The plan appends to INPUT a rule that accepts the packet. */
  predicate Admits(p: Plan, pkt: Packet) {
    p.DirectPlan? && !p.front && p.rules != [] && p.rules[0].target.Accept? && Hits(p.rules[0].cond, pkt)
  }

  lemma IgnoringPlan(t: Table, rank: Chain -> nat, pkt: Packet, rules: seq<Rule>, p: Plan, limit: nat)
    requires Ranked(t, rank) && AllBelow(t, rank, limit, rules)
    requires p.Valid() && InPlace(t, rank, limit, p) && Ignores(p, pkt)
    ensures var after := InputWith(rules, p);
            && AllBelow(t, rank, limit, after)
            && Walk(t, rank, pkt, after, limit) == Walk(t, rank, pkt, rules, limit)
            && (RunsOff(t, rank, pkt, rules, limit) ==> RunsOff(t, rank, pkt, after, limit))
  {
    match p
    case ChainPlan(c, body, _) =>
      WalkFlat(t, rank, pkt, body, rank(c));
      IdleEnsured(t, rank, pkt, true, rules, p.JumpRule(), limit);
    case DirectPlan(rs, front, _) => IdleEnsuredAll(t, rank, pkt, front, rules, rs, limit);
  }

  /** Whatever else is appended, an accepted packet stays accepted. */
  lemma {:induction false} AcceptedStays(t: Table, rank: Chain -> nat, pkt: Packet,
                                         rules: seq<Rule>, rs: seq<Rule>, limit: nat)
    requires Ranked(t, rank) && AllBelow(t, rank, limit, rules)
    requires forall r :: r in rs ==> Below(t, rank, limit, r)
    requires Walk(t, rank, pkt, rules, limit) == Final(Accepted)
    ensures var after := EnsuredAll(false, rules, rs);
            AllBelow(t, rank, limit, after) && Walk(t, rank, pkt, after, limit) == Final(Accepted)
    decreases |rs|
  {
    if rs != [] {
      assert rs[0] in rs;
      if rs[0] !in rules { WalkAppended(t, rank, pkt, rules, rs[0], limit); }
      AcceptedStays(t, rank, pkt, Ensured(false, rules, rs[0]), rs[1..], limit);
    }
  }

  lemma {:induction false} MatchedRulesStop(t: Table, rank: Chain -> nat, pkt: Packet, rules: seq<Rule>,
                                            r: Rule, limit: nat)
    requires Ranked(t, rank) && AllBelow(t, rank, limit, rules) && RunsOff(t, rank, pkt, rules, limit)
    requires r.target.Accept? && Hits(r.cond, pkt)
    ensures r !in rules
    decreases |rules|
  {
    if rules != [] {
      assert rules == [rules[0]] + rules[1..];
      MatchedRulesStop(t, rank, pkt, rules[1..], r, limit);
    }
  }

  lemma AdmittingPlan(t: Table, rank: Chain -> nat, pkt: Packet, rules: seq<Rule>, p: Plan, limit: nat)
    requires Ranked(t, rank) && AllBelow(t, rank, limit, rules)
    requires p.Valid() && Admits(p, pkt)
    requires RunsOff(t, rank, pkt, rules, limit) || Walk(t, rank, pkt, rules, limit) == Final(Accepted)
    ensures var after := InputWith(rules, p);
            AllBelow(t, rank, limit, after) && Walk(t, rank, pkt, after, limit) == Final(Accepted)
  {
    var a, more := p.rules[0], p.rules[1..];
    assert a in p.rules && forall r :: r in more ==> r in p.rules;
    if RunsOff(t, rank, pkt, rules, limit) {
      MatchedRulesStop(t, rank, pkt, rules, a, limit);
    }
    if a !in rules {
      WalkAppended(t, rank, pkt, rules, a, limit);
    }
    AcceptedStays(t, rank, pkt, Ensured(false, rules, a), more, limit);
  }

  lemma {:induction false} AdmittedByList(t: Table, rank: Chain -> nat, pkt: Packet, rules: seq<Rule>,
                                          ps: seq<Plan>, limit: nat)
    requires Ranked(t, rank) && AllBelow(t, rank, limit, rules)
    requires forall p :: p in ps ==>
               p.Valid() && InPlace(t, rank, limit, p) && (Ignores(p, pkt) || Admits(p, pkt))
    requires var o := Walk(t, rank, pkt, rules, limit);
             if exists p :: p in ps && Admits(p, pkt)
             then o == Final(Accepted) || RunsOff(t, rank, pkt, rules, limit)
             else o == Final(Accepted)
    ensures var after := InputAfter(rules, ps);
            AllBelow(t, rank, limit, after) && Walk(t, rank, pkt, after, limit) == Final(Accepted)
    decreases |ps|
  {
    if ps != [] {
      var p, rest := ps[0], ps[1..];
      assert p in ps && ps == [p] + rest;
      if Admits(p, pkt) {
        AdmittingPlan(t, rank, pkt, rules, p, limit);
      } else {
        IgnoringPlan(t, rank, pkt, rules, p, limit);
      }
      AdmittedByList(t, rank, pkt, InputWith(rules, p), rest, limit);
    }
  }

  /** A list with an accepting plan lets a packet in that an empty INPUT with a dropping
      policy kept out, if no other plan decides about it. */
  lemma AdmittingListLoosens(t: Table, ps: seq<Plan>, a: Plan, pkt: Packet)
    requires WellFormed(t) && Acyclic(t) && Compatible(ps) && a in ps && Admits(a, pkt)
    requires forall p :: p in ps ==> p.Valid() && (Ignores(p, pkt) || Admits(p, pkt))
    ensures !AlwaysTightens(t, ps)
  {
    var u := Probe(t, INPUT, [], Dropped);
    var rank :| Ranked(t, rank);
    var up := ProbeRank(rank, INPUT, 0);
    ProbeRanked(t, rank, INPUT, [], 0, Dropped);
    VerdictAnyRank(u, up, INPUT, pkt);
    AdmittedAtInput(u, ps, a, up, pkt);
    assert !Tightens(u, ps);
  }

  lemma AdmittedAtInput(u: Table, ps: seq<Plan>, a: Plan, rank: Chain -> nat, pkt: Packet)
    requires WellFormed(u) && Compatible(ps) && a in ps && Admits(a, pkt) && Ranked(u, rank)
    requires forall p :: p in ps ==> p.Valid() && (Ignores(p, pkt) || Admits(p, pkt))
    requires u.chains[INPUT] == []
    ensures var u' := ApplyAll(u, ps);
            WellFormed(u') && Acyclic(u') && VerdictOf(u', INPUT, pkt) == Accepted
  {
    var u', over := ApplyAll(u, ps), Over(ps, rank);
    ListOutfits(u, ps);
    OutfittedRanked(u, u', ps, rank);
    HooksAreNoPlanChains(ps, INPUT);
    forall p | p in ps ensures InPlace(u', over, over(INPUT), p) {
      assert p.ChainPlan? ==> HasChain(ps, p.chain);
    }
    AdmittedByList(u', over, pkt, [], ps, over(INPUT));
    VerdictAnyRank(u', over, INPUT, pkt);
  }

  // ---------- A chain of the operator's by the same name ----------

  /** An operator's own chain c drops every packet of INPUT. */
  function OwnChain(c: Chain): Table {
    Table(map[INPUT := [Rule([], Jump(c))], FORWARD := [], OUTPUT := [], c := [Rule([], Drop)]],
          map[INPUT := Accepted, FORWARD := Accepted, OUTPUT := Accepted])
  }

  /** A packet that passes no test at all. */
  function Plain(): Packet { x => false }

  lemma {:induction false} UnmatchedDropsPass(rules: seq<Rule>, pkt: Packet)
    requires OnlyDrops(rules) && forall r :: r in rules && r.target.Drop? ==> !Hits(r.cond, pkt)
    ensures FlatWalk(rules, pkt).Through?
  {
    if rules != [] {
      assert rules[0] in rules;
      UnmatchedDropsPass(rules[1..], pkt);
    }
  }

  /** What is lost when a chain is not covered: an operator's chain of the same name is
      flushed, and a packet which that chain dropped is accepted. */
  lemma OwnChainIsLost(p: Plan)
    requires p.ChainPlan? && p.Valid() && forall r :: r in p.body && r.target.Drop? ==> !Hits(r.cond, Plain())
    ensures var t, t' := OwnChain(p.chain), Apply(OwnChain(p.chain), p);
            && WellFormed(t) && Acyclic(t) && WellFormed(t') && Acyclic(t') && !Covered(t, p)
            && VerdictOf(t, INPUT, Plain()) == Dropped && VerdictOf(t', INPUT, Plain()) == Accepted
  {
    var c, t := p.chain, OwnChain(p.chain);
    OwnChainDrops(c);
    ApplyInstalls(t, p);
    RefilledChainPasses(Apply(t, p), p);
    if Covered(t, p) {
      InstallingTightens(t, p, INPUT, Plain());
    }
  }

  function InputOnTop(): Chain -> nat { d => if d == INPUT then 1 else 0 }

  lemma OwnChainDrops(c: Chain)
    requires c !in {INPUT, FORWARD, OUTPUT}
    ensures var t := OwnChain(c); WellFormed(t) && Acyclic(t) && VerdictOf(t, INPUT, Plain()) == Dropped
  {
    var t, rank := OwnChain(c), InputOnTop();
    assert Ranked(t, rank);
    VerdictAnyRank(t, rank, INPUT, Plain());
    assert Walk(t, rank, Plain(), [Rule([], Drop)], rank(c)) == Final(Dropped);
    LoneJump(t, rank, Plain(), c, rank(INPUT));
  }

  lemma RefilledChainPasses(t: Table, p: Plan)
    requires p.ChainPlan? && p.Valid() && forall r :: r in p.body && r.target.Drop? ==> !Hits(r.cond, Plain())
    requires t == Installation(OwnChain(p.chain), p)
    ensures Acyclic(t) && VerdictOf(t, INPUT, Plain()) == Accepted
  {
    var c, rank := p.chain, InputOnTop();
    forall r | r in t.chains[INPUT] ensures r.target == Jump(c) {
      assert r == p.JumpRule() || r == Rule([], Jump(c));
    }
    assert Ranked(t, rank);
    VerdictAnyRank(t, rank, INPUT, Plain());
    UnmatchedDropsPass(p.body, Plain());
    WalkFlat(t, rank, Plain(), p.body, rank(c));
    JumpsPassOn(t, rank, c, t.chains[INPUT]);
  }

  lemma {:induction false} JumpsPassOn(t: Table, rank: Chain -> nat, c: Chain, rules: seq<Rule>)
    requires Ranked(t, rank) && c in t.chains && rank(c) < 1
    requires Walk(t, rank, Plain(), t.chains[c], rank(c)).Through?
    requires forall r :: r in rules ==> r.target == Jump(c)
    ensures AllBelow(t, rank, 1, rules) && Walk(t, rank, Plain(), rules, 1).Through?
    decreases |rules|
  {
    if rules != [] {
      assert rules[0] in rules;
      JumpsPassOn(t, rank, c, rules[1..]);
    }
  }
}
