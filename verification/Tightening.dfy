/** Installing protections never lets a packet in that was kept out, save for the
    echo-request rule, whose exact effect is given. */
module Tightening {
  import opened Netfilter
  import opened Plans
  import opened PlanRuns
  import opened PlanEffects

  ghost predicate Refused(o: Outcome) { o.Final? && o.verdict != Accepted }

  /** `after` is at least as strict as `before`. */
  ghost predicate Tight(after: Outcome, before: Outcome) {
    && (Refused(before) ==> Refused(after))
    && (before.Through? ==> after.Through? || Refused(after))
  }

  /** The packet leaves the rules behind their last one, not through a RETURN. */
  ghost predicate RunsOff(t: Table, rank: Chain -> nat, pkt: Packet, rules: seq<Rule>, limit: nat)
    requires Ranked(t, rank) && AllBelow(t, rank, limit, rules)
    decreases |rules|
  {
    rules == [] ||
    (assert Below(t, rank, limit, rules[0]);
     RunsOff(t, rank, pkt, rules[1..], limit)
     && (Hits(rules[0].cond, pkt) ==>
           match rules[0].target
           case Log => true
           case Jump(d) => Walk(t, rank, pkt, t.chains[d], rank(d)).Through?
           case _ => false))
  }

  lemma {:induction false} WalkAppended(t: Table, rank: Chain -> nat, pkt: Packet, rules: seq<Rule>, r: Rule,
                                        limit: nat)
    requires Ranked(t, rank) && AllBelow(t, rank, limit, rules) && Below(t, rank, limit, r)
    ensures AllBelow(t, rank, limit, rules + [r]) && AllBelow(t, rank, limit, [r])
    ensures Walk(t, rank, pkt, rules + [r], limit)
         == if RunsOff(t, rank, pkt, rules, limit) then Walk(t, rank, pkt, [r], limit)
            else Walk(t, rank, pkt, rules, limit)
    ensures RunsOff(t, rank, pkt, rules, limit) ==> Walk(t, rank, pkt, rules, limit).Through?
    decreases |rules|
  {
    if rules == [] {
      assert rules + [r] == [r];
    } else {
      assert Below(t, rank, limit, rules[0]);
      WalkAppended(t, rank, pkt, rules[1..], r, limit);
      assert (rules + [r])[1..] == rules[1..] + [r];
    }
  }

  // ---------- Rules without jumps ----------

  ghost predicate Flat(rules: seq<Rule>) {
    forall r :: r in rules ==> !r.target.Jump?
  }

  /** The walk of rules that need no table. */
  ghost function FlatWalk(rules: seq<Rule>, pkt: Packet): Outcome
    requires Flat(rules)
  {
    if rules == [] then Through
    else
      assert rules[0] in rules;
      if !Hits(rules[0].cond, pkt) then FlatWalk(rules[1..], pkt)
      else match rules[0].target
        case Accept => Final(Accepted)
        case Drop => Final(Dropped)
        case Reject => Final(Rejected)
        case Return => Through
        case Log => FlatWalk(rules[1..], pkt)
  }

  lemma {:induction false} WalkFlat(t: Table, rank: Chain -> nat, pkt: Packet, rules: seq<Rule>, limit: nat)
    requires Ranked(t, rank) && Flat(rules)
    ensures AllBelow(t, rank, limit, rules) && Walk(t, rank, pkt, rules, limit) == FlatWalk(rules, pkt)
    decreases |rules|
  {
    if rules != [] {
      assert rules[0] in rules;
      WalkFlat(t, rank, pkt, rules[1..], limit);
    }
  }

  lemma {:induction false} DropsRefuse(rules: seq<Rule>, pkt: Packet)
    requires OnlyDrops(rules)
    ensures Flat(rules) && (FlatWalk(rules, pkt).Through? || Refused(FlatWalk(rules, pkt)))
  {
    if rules != [] {
      assert rules[0] in rules;
      DropsRefuse(rules[1..], pkt);
    }
  }

  // ---------- Which chains may be refilled ----------

  /** What a chain does with a packet. */
  ghost function ChainOutcome(t: Table, c: Chain, pkt: Packet): Outcome
    requires Acyclic(t) && c in t.chains
  {
    var rank :| Ranked(t, rank);
    Walk(t, rank, pkt, t.chains[c], rank(c))
  }

  lemma ChainAnyRank(t: Table, rank: Chain -> nat, c: Chain, pkt: Packet)
    requires Ranked(t, rank) && c in t.chains
    ensures Acyclic(t) && ChainOutcome(t, c, pkt) == Walk(t, rank, pkt, t.chains[c], rank(c))
  {
    forall rank' | Ranked(t, rank')
      ensures Walk(t, rank', pkt, t.chains[c], rank'(c)) == Walk(t, rank, pkt, t.chains[c], rank(c))
    {
      WalkAnyRank(t, rank', rank, pkt, t.chains[c], rank'(c), rank(c));
    }
  }

  /** The plan's own rules refuse every packet that its chain refuses now: a chain that is
      to be refilled may be absent, or hold anything the new rules cover. */
  ghost predicate Covered(t: Table, p: Plan)
    requires Acyclic(t) && p.Valid()
  {
    p.ChainPlan? && p.chain in t.chains ==>
      forall pkt :: Refused(ChainOutcome(t, p.chain, pkt)) ==> Refused(FlatWalk(p.body, pkt))
  }

  /** `held` refuses no packet that `body` lets pass. */
  ghost predicate Covers(body: seq<Rule>, held: seq<Rule>)
    requires Flat(body) && Flat(held)
  {
    forall pkt :: Refused(FlatWalk(held, pkt)) ==> Refused(FlatWalk(body, pkt))
  }

  /** Of a chain without jumps, coverage is a matter of its rules and the plan's alone. */
  lemma FlatChainCovered(t: Table, p: Plan)
    requires Acyclic(t) && p.ChainPlan? && p.Valid() && p.chain in t.chains && Flat(t.chains[p.chain])
    ensures Covered(t, p) <==> Covers(p.body, t.chains[p.chain])
  {
    var rank :| Ranked(t, rank);
    forall pkt ensures ChainOutcome(t, p.chain, pkt) == FlatWalk(t.chains[p.chain], pkt) {
      ChainAnyRank(t, rank, p.chain, pkt);
      WalkFlat(t, rank, pkt, t.chains[p.chain], rank(p.chain));
    }
  }

  /** A chain that holds a first part of the plan's rules: complete, emptied by a removal,
      or left half-filled by a lost command. */
  ghost predicate Refillable(t: Table, p: Plan) {
    p.ChainPlan? && p.chain in t.chains ==> t.chains[p.chain] <= p.body
  }

  lemma {:induction false} PrefixCovered(held: seq<Rule>, body: seq<Rule>, pkt: Packet)
    requires held <= body && OnlyDrops(body)
    ensures Flat(held) && (Refused(FlatWalk(held, pkt)) ==> Refused(FlatWalk(body, pkt)))
  {
    assert forall r :: r in held ==> r in body;
    if held != [] {
      assert held[0] in body;
      PrefixCovered(held[1..], body[1..], pkt);
    }
  }

  lemma RefillableIsCovered(t: Table, p: Plan)
    requires Acyclic(t) && p.Valid() && Refillable(t, p)
    ensures Covered(t, p)
  {
    if p.ChainPlan? && p.chain in t.chains {
      forall pkt ensures Flat(t.chains[p.chain])
                      && (Refused(FlatWalk(t.chains[p.chain], pkt)) ==> Refused(FlatWalk(p.body, pkt)))
      {
        PrefixCovered(t.chains[p.chain], p.body, pkt);
      }
      FlatChainCovered(t, p);
    }
  }

  /** So is an operator's chain that only lets packets pass. */
  lemma HarmlessIsCovered(t: Table, p: Plan)
    requires Acyclic(t) && p.Valid()
    requires p.ChainPlan? && p.chain in t.chains ==>
               forall r :: r in t.chains[p.chain] ==> r.target in {Accept, Return, Log}
    ensures Covered(t, p)
  {
    if p.ChainPlan? && p.chain in t.chains {
      forall pkt ensures !Refused(FlatWalk(t.chains[p.chain], pkt)) {
        NeverRefuses(t.chains[p.chain], pkt);
      }
      FlatChainCovered(t, p);
    }
  }

  lemma {:induction false} NeverRefuses(rules: seq<Rule>, pkt: Packet)
    requires forall r :: r in rules ==> r.target in {Accept, Return, Log}
    ensures Flat(rules) && !Refused(FlatWalk(rules, pkt))
  {
    if rules != [] {
      assert rules[0] in rules;
      NeverRefuses(rules[1..], pkt);
    }
  }

  // ---------- Refilled chains are at least as strict ----------

  /** Every plan of a list covers what its chain holds in t. */
  ghost predicate AllCovered(t: Table, ps: seq<Plan>)
    requires Acyclic(t) && Compatible(ps)
  {
    forall p :: p in ps ==> Covered(t, p)
  }

  lemma {:induction false} WalkGrown(t: Table, t': Table, ps: seq<Plan>, rank: Chain -> nat, rank': Chain -> nat,
                                     pkt: Packet, rules: seq<Rule>, limit: nat, limit': nat)
    requires WellFormed(t) && Compatible(ps) && Outfitted(t, t', ps) && Acyclic(t) && AllCovered(t, ps)
    requires Ranked(t, rank) && AllBelow(t, rank, limit, rules)
    requires Ranked(t', rank') && AllBelow(t', rank', limit', rules)
    requires forall r :: r in rules && r.target.Jump? ==> r.target.chain != INPUT
    ensures Tight(Walk(t', rank', pkt, rules, limit'), Walk(t, rank, pkt, rules, limit))
    decreases limit, |rules|
  {
    if rules != [] {
      var r := rules[0];
      assert Below(t, rank, limit, r) && Below(t', rank', limit', r);
      WalkGrown(t, t', ps, rank, rank', pkt, rules[1..], limit, limit');
      if r.target.Jump? {
        var d := r.target.chain;
        if HasChain(ps, d) {
          RefilledTight(t, t', ps, rank, rank', pkt, d);
        } else {
          WalkGrown(t, t', ps, rank, rank', pkt, t.chains[d], rank(d), rank'(d));
        }
      }
    }
  }

  lemma RefilledTight(t: Table, t': Table, ps: seq<Plan>, rank: Chain -> nat, rank': Chain -> nat,
                      pkt: Packet, d: Chain)
    requires Compatible(ps) && Outfitted(t, t', ps) && Ranked(t, rank) && Ranked(t', rank')
    requires Acyclic(t) && AllCovered(t, ps) && HasChain(ps, d) && d in t.chains
    ensures Tight(Walk(t', rank', pkt, t'.chains[d], rank'(d)), Walk(t, rank, pkt, t.chains[d], rank(d)))
  {
    var p :| p in ps && p.ChainPlan? && p.chain == d;
    assert p.Valid() && Covered(t, p) && t'.chains[d] == p.body;
    ChainAnyRank(t, rank, d, pkt);
    DropsRefuse(p.body, pkt);
    WalkFlat(t', rank', pkt, p.body, rank'(d));
  }

  // ---------- New rules in INPUT ----------

  /** A rule that drops, rejects, or jumps to a chain that only drops. */
  ghost predicate Strict(t: Table, r: Rule) {
    r.target.Drop? || r.target.Reject?
    || (r.target.Jump? && r.target.chain in t.chains && OnlyDrops(t.chains[r.target.chain]))
  }

  lemma StrictAlone(t: Table, rank: Chain -> nat, pkt: Packet, r: Rule, limit: nat)
    requires Ranked(t, rank) && Below(t, rank, limit, r) && Strict(t, r)
    ensures AllBelow(t, rank, limit, [r])
    ensures var o := Walk(t, rank, pkt, [r], limit); o.Through? || Refused(o)
  {
    assert [r][1..] == [];
    if r.target.Jump? {
      var d := r.target.chain;
      DropsRefuse(t.chains[d], pkt);
      WalkFlat(t, rank, pkt, t.chains[d], rank(d));
    }
  }

  lemma StrictEnsured(t: Table, rank: Chain -> nat, pkt: Packet, front: bool, rules: seq<Rule>, r: Rule, limit: nat)
    requires Ranked(t, rank) && AllBelow(t, rank, limit, rules) && Below(t, rank, limit, r) && Strict(t, r)
    ensures AllBelow(t, rank, limit, Ensured(front, rules, r))
    ensures Tight(Walk(t, rank, pkt, Ensured(front, rules, r), limit), Walk(t, rank, pkt, rules, limit))
  {
    if r !in rules {
      StrictAlone(t, rank, pkt, r, limit);
      if front {
        assert ([r] + rules)[1..] == rules && [r][1..] == [];
      } else {
        WalkAppended(t, rank, pkt, rules, r, limit);
      }
    }
  }

  lemma {:induction false} StrictEnsuredAll(t: Table, rank: Chain -> nat, pkt: Packet, front: bool,
                                            rules: seq<Rule>, rs: seq<Rule>, limit: nat)
    requires Ranked(t, rank) && AllBelow(t, rank, limit, rules)
    requires forall r :: r in rs ==> r.target in {Drop, Reject}
    ensures AllBelow(t, rank, limit, EnsuredAll(front, rules, rs))
    ensures Tight(Walk(t, rank, pkt, EnsuredAll(front, rules, rs), limit), Walk(t, rank, pkt, rules, limit))
    decreases |rs|
  {
    if rs != [] {
      assert rs[0] in rs;
      StrictEnsured(t, rank, pkt, front, rules, rs[0], limit);
      StrictEnsuredAll(t, rank, pkt, front, Ensured(front, rules, rs[0]), rs[1..], limit);
    }
  }

  /** The chain of a plan is filled in t and lies below the limit. */
  ghost predicate InPlace(t: Table, rank: Chain -> nat, limit: nat, p: Plan) {
    p.ChainPlan? ==> p.chain in t.chains && t.chains[p.chain] == p.body && rank(p.chain) < limit
  }

  lemma {:induction false} StrictInput(t: Table, rank: Chain -> nat, pkt: Packet, rules: seq<Rule>,
                                       ps: seq<Plan>, limit: nat)
    requires Ranked(t, rank) && AllBelow(t, rank, limit, rules)
    requires forall p :: p in ps ==> p.Valid() && p.Restrictive() && InPlace(t, rank, limit, p)
    ensures AllBelow(t, rank, limit, InputAfter(rules, ps))
    ensures Tight(Walk(t, rank, pkt, InputAfter(rules, ps), limit), Walk(t, rank, pkt, rules, limit))
    decreases |ps|
  {
    if ps != [] {
      var p := ps[0];
      assert p in ps;
      if p.ChainPlan? {
        StrictEnsured(t, rank, pkt, true, rules, p.JumpRule(), limit);
      } else {
        StrictEnsuredAll(t, rank, pkt, p.front, rules, p.rules, limit);
      }
      StrictInput(t, rank, pkt, InputWith(rules, p), ps[1..], limit);
    }
  }

  // ---------- Lists of protections ----------

  /** The chains of the plans lie at the bottom of the new ruleset. */
  ghost function Over(ps: seq<Plan>, rank: Chain -> nat): Chain -> nat {
    c => if HasChain(ps, c) then 0 else rank(c) + 1
  }

  lemma OutfittedRanked(t: Table, t': Table, ps: seq<Plan>, rank: Chain -> nat)
    requires WellFormed(t) && Compatible(ps) && Outfitted(t, t', ps) && Ranked(t, rank)
    ensures Ranked(t', Over(ps, rank))
  {
    var up := Over(ps, rank);
    forall c | c in t'.chains ensures AllBelow(t', up, up(c), t'.chains[c]) {
      forall r | r in t'.chains[c] ensures Below(t', up, up(c), r) {
        if HasChain(ps, c) {
          var p :| p in ps && p.ChainPlan? && p.chain == c;
          assert p.Valid() && r in p.body;
        } else if c == INPUT {
          InputBelow(t, t', ps, rank, r);
        } else {
          StillBelow(t, t', ps, rank, c, r);
        }
      }
    }
  }

  lemma InputBelow(t: Table, t': Table, ps: seq<Plan>, rank: Chain -> nat, r: Rule)
    requires Compatible(ps) && Outfitted(t, t', ps) && Ranked(t, rank) && r in t'.chains[INPUT]
    ensures Below(t', Over(ps, rank), Over(ps, rank)(INPUT), r)
  {
    HooksAreNoPlanChains(ps, INPUT);
    InputAfterRules(t.chains[INPUT], ps, r);
    if r in t.chains[INPUT] {
      StillBelow(t, t', ps, rank, INPUT, r);
    } else {
      var p :| p in ps && Owns(p, r);
      assert p.Valid() && (p.ChainPlan? ==> HasChain(ps, p.chain));
    }
  }

  lemma StillBelow(t: Table, t': Table, ps: seq<Plan>, rank: Chain -> nat, c: Chain, r: Rule)
    requires Outfitted(t, t', ps) && Ranked(t, rank) && !HasChain(ps, c) && c in t.chains && r in t.chains[c]
    ensures Below(t', Over(ps, rank), Over(ps, rank)(c), r)
  {
    assert AllBelow(t, rank, rank(c), t.chains[c]) && Below(t, rank, rank(c), r);
  }

  lemma HooksAreNoPlanChains(ps: seq<Plan>, hook: Chain)
    requires Compatible(ps) && hook in {INPUT, FORWARD, OUTPUT}
    ensures !HasChain(ps, hook)
  {
  }

  lemma HookTight(t: Table, t': Table, ps: seq<Plan>, rank: Chain -> nat, hook: Chain, pkt: Packet)
    requires WellFormed(t) && Compatible(ps) && Outfitted(t, t', ps) && Ranked(t, rank) && hook in t.policy
    requires Acyclic(t) && AllCovered(t, ps) && forall p :: p in ps ==> p.Restrictive()
    ensures Ranked(t', Over(ps, rank)) && hook in t'.chains
    ensures Tight(Walk(t', Over(ps, rank), pkt, t'.chains[hook], Over(ps, rank)(hook)),
                  Walk(t, rank, pkt, t.chains[hook], rank(hook)))
  {
    var up, rules := Over(ps, rank), t.chains[hook];
    OutfittedRanked(t, t', ps, rank);
    HooksAreNoPlanChains(ps, hook);
    assert AllBelow(t, rank, rank(hook), rules);
    forall r | r in rules ensures Below(t', up, up(hook), r) {
      StillBelow(t, t', ps, rank, hook, r);
    }
    WalkGrown(t, t', ps, rank, up, pkt, rules, rank(hook), up(hook));
    if hook == INPUT {
      forall p | p in ps ensures InPlace(t', up, up(hook), p) {
        assert p.ChainPlan? ==> HasChain(ps, p.chain);
      }
      StrictInput(t', up, pkt, rules, ps, up(hook));
    }
  }

  /** No list of restrictive protections whose chains are covered lets in a packet that was
      dropped or rejected. */
  lemma ListTightens(t: Table, ps: seq<Plan>, hook: Chain, pkt: Packet)
    requires WellFormed(t) && Acyclic(t) && hook in t.policy
    requires Compatible(ps) && AllCovered(t, ps) && forall p :: p in ps ==> p.Restrictive()
    ensures var t' := ApplyAll(t, ps);
            && WellFormed(t') && Acyclic(t') && t'.policy == t.policy
            && (VerdictOf(t, hook, pkt) != Accepted ==> VerdictOf(t', hook, pkt) != Accepted)
  {
    ListOutfits(t, ps);
    OutfittedTightens(t, ApplyAll(t, ps), ps, hook, pkt);
  }

  lemma OutfittedTightens(t: Table, t': Table, ps: seq<Plan>, hook: Chain, pkt: Packet)
    requires WellFormed(t) && Acyclic(t) && hook in t.policy && Outfitted(t, t', ps)
    requires Compatible(ps) && AllCovered(t, ps) && forall p :: p in ps ==> p.Restrictive()
    ensures Acyclic(t') && hook in t'.chains
    ensures VerdictOf(t, hook, pkt) != Accepted ==> VerdictOf(t', hook, pkt) != Accepted
  {
    var rank :| Ranked(t, rank);
    HookTight(t, t', ps, rank, hook, pkt);
    VerdictAnyRank(t, rank, hook, pkt);
    VerdictAnyRank(t', Over(ps, rank), hook, pkt);
  }

  lemma InstallingTightens(t: Table, p: Plan, hook: Chain, pkt: Packet)
    requires WellFormed(t) && Acyclic(t) && hook in t.policy
    requires p.Valid() && p.Restrictive() && Covered(t, p)
    ensures var t' := Apply(t, p);
            && WellFormed(t') && Acyclic(t') && t'.policy == t.policy
            && (VerdictOf(t, hook, pkt) != Accepted ==> VerdictOf(t', hook, pkt) != Accepted)
  {
    ApplyOne(t, p);
    ListTightens(t, [p], hook, pkt);
  }

  // ---------- The one protection that accepts ----------

  /** A plan that appends an accepting rule and then a dropping one (the ICMP protection)
      lets in a packet that was kept out exactly when the packet ran off the end of INPUT
      into a refusing policy and passes the accepting rule's tests. */
  lemma AcceptingPlanExactly(t: Table, p: Plan, rank: Chain -> nat, hook: Chain, pkt: Packet)
    requires p.DirectPlan? && !p.front && |p.rules| == 2
    requires p.rules[0].target.Accept? && p.rules[1].target.Drop?
    requires Clean({p}, t) && Ranked(t, rank) && hook in t.policy
    ensures Acyclic(t) && WellFormed(Apply(t, p)) && Acyclic(Apply(t, p))
    ensures VerdictOf(t, hook, pkt) != Accepted && VerdictOf(Apply(t, p), hook, pkt) == Accepted
        <==> && hook == INPUT && t.policy[INPUT] != Accepted
             && Hits(p.rules[0].cond, pkt)
             && RunsOff(t, rank, pkt, t.chains[INPUT], rank(INPUT))
  {
    var S, t' := {p}, Apply(t, p);
    assert p in S && p.Valid();
    CleanIsOverlay(S, t);
    CommandsAllowed(S, p);
    RunAllKeepsOverlay(S, t, t, ApplyCmds(p));
    ApplyInstalls(t, p);
    PlainlyRanked(t, t', p, rank);
    VerdictAnyRank(t, rank, hook, pkt);
    VerdictAnyRank(t', rank, hook, pkt);
    if hook != INPUT {
      OtherHooksUntouched(S, t, t', hook, pkt);
    } else {
      WalkBehindInput(t, t', p, rank, pkt);
    }
  }

  lemma TwoAppended(t: Table, p: Plan)
    requires p.DirectPlan? && !p.front && |p.rules| == 2 && p.rules[0] != p.rules[1]
    requires Clean({p}, t)
    ensures Installation(t, p).chains[INPUT] == t.chains[INPUT] + [p.rules[0]] + [p.rules[1]]
  {
    assert p in {p} && Owns(p, p.rules[0]) && Owns(p, p.rules[1]);
    var rules := t.chains[INPUT];
    assert p.rules[0] !in rules && p.rules[1] !in rules;
    assert p.rules[1..][1..] == [];
    assert EnsuredAll(false, rules, p.rules) == EnsuredAll(false, rules + [p.rules[0]], p.rules[1..])
        == EnsuredAll(false, rules + [p.rules[0]] + [p.rules[1]], []);
  }

  lemma PlainlyRanked(t: Table, t': Table, p: Plan, rank: Chain -> nat)
    requires p.DirectPlan? && p.Valid() && WellFormed(t) && Ranked(t, rank) && t' == Installation(t, p)
    ensures Ranked(t', rank)
  {
    EnsuredAllRules(p.front, t.chains[INPUT], p.rules);
    forall c | c in t'.chains ensures AllBelow(t', rank, rank(c), t'.chains[c]) {
      assert AllBelow(t, rank, rank(c), t.chains[c]);
      forall r | r in t'.chains[c] ensures Below(t', rank, rank(c), r) {
        if r in t.chains[c] { assert Below(t, rank, rank(c), r); }
      }
    }
  }

  lemma WalkBehindInput(t: Table, t': Table, p: Plan, rank: Chain -> nat, pkt: Packet)
    requires p.DirectPlan? && !p.front && |p.rules| == 2
    requires p.rules[0].target.Accept? && p.rules[1].target.Drop?
    requires Clean({p}, t) && t' == Installation(t, p) && Overlay({p}, t, t') && Ranked(t, rank) && Ranked(t', rank)
    ensures Walk(t', rank, pkt, t'.chains[INPUT], rank(INPUT))
         == if !RunsOff(t, rank, pkt, t.chains[INPUT], rank(INPUT))
            then Walk(t, rank, pkt, t.chains[INPUT], rank(INPUT))
            else if Hits(p.rules[0].cond, pkt) then Final(Accepted)
            else if Hits(p.rules[1].cond, pkt) then Final(Dropped)
            else Through
    ensures RunsOff(t, rank, pkt, t.chains[INPUT], rank(INPUT)) ==>
              Walk(t, rank, pkt, t.chains[INPUT], rank(INPUT)).Through?
  {
    var rules, a, d, limit := t.chains[INPUT], p.rules[0], p.rules[1], rank(INPUT);
    TwoAppended(t, p);
    assert AllBelow(t, rank, limit, rules);
    assert AllBelow(t', rank, limit, t'.chains[INPUT]);
    assert forall r :: r in rules ==> r in t'.chains[INPUT];
    assert forall r :: r in rules + [a] ==> r in t'.chains[INPUT];
    RunsOffSame(t, t', p, rank, pkt, rules, limit);
    WalkOperatorChain({p}, t, t', rank, pkt, rules, limit);
    WalkAppended(t', rank, pkt, rules, a, limit);
    WalkAppended(t', rank, pkt, rules + [a], d, limit);
    WalkAppended(t, rank, pkt, rules, a, limit);
    RunsOffAppended(t', rank, pkt, rules, a, limit);
    assert [a][1..] == [] && [d][1..] == [];
  }

  lemma {:induction false} RunsOffAppended(t: Table, rank: Chain -> nat, pkt: Packet, rules: seq<Rule>, r: Rule,
                                           limit: nat)
    requires Ranked(t, rank) && AllBelow(t, rank, limit, rules) && Below(t, rank, limit, r)
    requires !r.target.Jump? && !r.target.Log?
    ensures AllBelow(t, rank, limit, rules + [r])
    ensures RunsOff(t, rank, pkt, rules + [r], limit) <==> RunsOff(t, rank, pkt, rules, limit) && !Hits(r.cond, pkt)
    decreases |rules|
  {
    if rules == [] {
      assert rules + [r] == [r] && [r][1..] == [];
    } else {
      assert Below(t, rank, limit, rules[0]);
      assert (rules + [r])[1..] == rules[1..] + [r];
      RunsOffAppended(t, rank, pkt, rules[1..], r, limit);
    }
  }

  lemma {:induction false} RunsOffSame(t: Table, t': Table, p: Plan, rank: Chain -> nat, pkt: Packet,
                                       rules: seq<Rule>, limit: nat)
    requires Clean({p}, t) && Overlay({p}, t, t') && Ranked(t, rank) && Ranked(t', rank)
    requires AllBelow(t, rank, limit, rules) && AllBelow(t', rank, limit, rules)
    requires forall r :: r in rules && r.target.Jump? ==> r.target.chain != INPUT
    ensures RunsOff(t', rank, pkt, rules, limit) <==> RunsOff(t, rank, pkt, rules, limit)
    decreases |rules|
  {
    if rules != [] {
      var r := rules[0];
      assert Below(t, rank, limit, r) && Below(t', rank, limit, r);
      RunsOffSame(t, t', p, rank, pkt, rules[1..], limit);
      if r.target.Jump? {
        WalkOperatorChain({p}, t, t', rank, pkt, t.chains[r.target.chain], rank(r.target.chain));
      }
    }
  }
}
