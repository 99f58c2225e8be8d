/** Removing some of the installed protections leaves the firewall of the others. */
module PartialRemoval {
  import opened Netfilter
  import opened Plans
  import opened PlanRuns
  import opened PlanEffects
  import opened Tightening

  function Members(ps: seq<Plan>): set<Plan> { set p | p in ps }

  /** ps without the plans of B, in order. */
  function Without(ps: seq<Plan>, B: set<Plan>): seq<Plan> {
    if ps == [] then [] else (if ps[0] in B then [] else [ps[0]]) + Without(ps[1..], B)
  }

  lemma {:induction false} WithoutMembers(ps: seq<Plan>, B: set<Plan>)
    ensures forall p :: p in Without(ps, B) <==> p in ps && p !in B
  {
    if ps != [] {
      WithoutMembers(ps[1..], B);
      assert ps == [ps[0]] + ps[1..];
    }
  }

  /** The plan shares no rule and no chain with those of B. */
  ghost predicate Foreign(B: set<Plan>, p: Plan) {
    && (forall r :: Owns(p, r) ==> !Owned(B, r))
    && (p.ChainPlan? ==> !OwnedChain(B, p.chain))
  }

  // ---------- INPUT without the rules of some plans ----------

  lemma StripEnsured(B: set<Plan>, front: bool, rules: seq<Rule>, r: Rule)
    ensures Strip(B, Ensured(front, rules, r))
         == if Owned(B, r) then Strip(B, rules) else Ensured(front, Strip(B, rules), r)
  {
    StripKeeps(B, rules);
    if r !in rules {
      assert [r][1..] == [];
      assert Strip(B, [r]) == if Owned(B, r) then [] else [r];
      StripConcat(B, [r], rules);
      StripConcat(B, rules, [r]);
    }
  }

  lemma {:induction false} StripEnsuredAll(B: set<Plan>, front: bool, rules: seq<Rule>, rs: seq<Rule>, mine: bool)
    requires forall r :: r in rs ==> (Owned(B, r) <==> mine)
    ensures Strip(B, EnsuredAll(front, rules, rs))
         == if mine then Strip(B, rules) else EnsuredAll(front, Strip(B, rules), rs)
    decreases |rs|
  {
    if rs != [] {
      assert rs[0] in rs;
      StripEnsured(B, front, rules, rs[0]);
      StripEnsuredAll(B, front, Ensured(front, rules, rs[0]), rs[1..], mine);
    }
  }

  lemma StripInputWith(B: set<Plan>, rules: seq<Rule>, p: Plan)
    requires p in B || Foreign(B, p)
    ensures Strip(B, InputWith(rules, p)) == if p in B then Strip(B, rules) else InputWith(Strip(B, rules), p)
  {
    match p
    case ChainPlan(_, _, _) =>
      assert Owns(p, p.JumpRule());
      StripEnsured(B, true, rules, p.JumpRule());
    case DirectPlan(rs, front, _) =>
      assert forall r :: r in rs ==> Owns(p, r);
      StripEnsuredAll(B, front, rules, rs, p in B);
  }

  /** Rules of other plans stay in the order in which they would have been put in alone. */
  lemma {:induction false} StripInputAfter(B: set<Plan>, rules: seq<Rule>, ps: seq<Plan>)
    requires forall p :: p in ps ==> p in B || Foreign(B, p)
    ensures Strip(B, InputAfter(rules, ps)) == InputAfter(Strip(B, rules), Without(ps, B))
    decreases |ps|
  {
    if ps != [] {
      var p, rest := ps[0], ps[1..];
      assert p in ps;
      StripInputWith(B, rules, p);
      StripInputAfter(B, InputWith(rules, p), rest);
      if p in B {
        assert Without(ps, B) == Without(rest, B);
      } else {
        assert ([p] + Without(rest, B))[1..] == Without(rest, B);
      }
    }
  }

  // ---------- All plans as an overlay of the others ----------

  /** B is part of the list, the rest of which has nothing in common with B. */
  ghost predicate Separate(ps: seq<Plan>, B: set<Plan>) {
    && Compatible(ps)
    && (forall p :: p in B ==> p in ps)
    && (forall p :: p in ps && p !in B ==> Foreign(B, p))
  }

  lemma CleanWithout(t0: Table, ps: seq<Plan>, B: set<Plan>)
    requires Clean(Members(ps), t0) && Separate(ps, B)
    ensures Clean(B, ApplyAll(t0, Without(ps, B)))
  {
    var rest := Without(ps, B);
    var t1 := ApplyAll(t0, rest);
    WithoutMembers(ps, B);
    ListOutfits(t0, rest);
    assert forall p :: p in rest ==> Foreign(B, p);
    forall c | OwnedChain(B, c) ensures c !in t1.chains {
      assert OwnedChain(Members(ps), c);
      assert !HasChain(rest, c);
    }
    forall r | r in t1.chains[INPUT] ensures !Owned(B, r) {
      InputAfterRules(t0.chains[INPUT], rest, r);
      assert Owned(B, r) ==> Owned(Members(ps), r);
    }
  }

  lemma OwnedOnce(t0: Table, ps: seq<Plan>, B: set<Plan>, r: Rule)
    requires Clean(Members(ps), t0) && Separate(ps, B) && Owned(B, r)
    ensures var t := ApplyAll(t0, ps);
            WellFormed(t) && multiset(t.chains[INPUT])[r] == 1 && TargetKnown(t, r)
  {
    var p :| p in B && Owns(p, r);
    assert p in ps && Owned(Members(ps), r) && r !in t0.chains[INPUT];
    ListOutfits(t0, ps);
    OneCopyOfEachRule(t0, ps, r);
  }

  lemma SameOtherChains(t0: Table, ps: seq<Plan>, B: set<Plan>)
    requires Clean(Members(ps), t0) && Separate(ps, B)
    ensures ChainsKept(B, ApplyAll(t0, Without(ps, B)), ApplyAll(t0, ps))
  {
    var rest := Without(ps, B);
    var t1, t2 := ApplyAll(t0, rest), ApplyAll(t0, ps);
    WithoutMembers(ps, B);
    ListOutfits(t0, rest);
    ListOutfits(t0, ps);
    forall c | c in t1.chains && c != INPUT ensures c in t2.chains && t2.chains[c] == t1.chains[c] {
      if HasChain(rest, c) {
        var p :| p in rest && p.ChainPlan? && p.chain == c;
        assert p in ps;
      } else {
        assert c in t0.chains;
        assert HasChain(ps, c) ==> OwnedChain(Members(ps), c);
      }
    }
    forall c | c in t2.chains && c !in t1.chains ensures OwnedChain(B, c) && OnlyDrops(t2.chains[c]) {
      assert HasChain(ps, c);
      var p :| p in ps && p.ChainPlan? && p.chain == c;
      assert p !in rest && p in B && p.Valid();
    }
  }

  lemma AllAreOverlay(t0: Table, ps: seq<Plan>, B: set<Plan>)
    requires Clean(Members(ps), t0) && Separate(ps, B)
    ensures Overlay(B, ApplyAll(t0, Without(ps, B)), ApplyAll(t0, ps))
  {
    var rest := Without(ps, B);
    var t1, t2 := ApplyAll(t0, rest), ApplyAll(t0, ps);
    WithoutMembers(ps, B);
    SameOtherChains(t0, ps, B);
    ListOutfits(t0, rest);
    ListOutfits(t0, ps);
    assert Strip(B, t0.chains[INPUT]) == t0.chains[INPUT] by {
      forall r | r in t0.chains[INPUT] ensures !Owned(B, r) {
        assert !Owned(Members(ps), r);
      }
      StripKeeps(B, t0.chains[INPUT]);
    }
    StripInputAfter(B, t0.chains[INPUT], ps);
    forall r | r in t2.chains[INPUT] && Owned(B, r)
      ensures multiset(t2.chains[INPUT])[r] == 1 && TargetKnown(t2, r)
    {
      OwnedOnce(t0, ps, B, r);
    }
  }

  /** Installing a list of protections and removing some of them, in any order, gives every
      packet at every hook the verdict of installing only the others. */
  lemma RemovingSomeLeavesTheOthers(t0: Table, ps: seq<Plan>, order: seq<Plan>, hook: Chain, pkt: Packet)
    requires Clean(Members(ps), t0) && Acyclic(t0) && hook in t0.policy
    requires Separate(ps, Members(order))
    ensures var t := RemoveAll(ApplyAll(t0, ps), order);
            var u := ApplyAll(t0, Without(ps, Members(order)));
            && t.policy == u.policy == t0.policy && hook in t.chains && hook in u.chains
            && Acyclic(t) && Acyclic(u) && VerdictOf(t, hook, pkt) == VerdictOf(u, hook, pkt)
  {
    var B, rest := Members(order), Without(ps, Members(order));
    var u := ApplyAll(t0, rest);
    WithoutMembers(ps, B);
    ListOutfits(t0, rest);
    var rank :| Ranked(t0, rank);
    OutfittedRanked(t0, u, rest, rank);
    CleanWithout(t0, ps, B);
    AllAreOverlay(t0, ps, B);
    RemovingAllMakesGone(B, u, ApplyAll(t0, ps), order);
    GoneMeansRestored(B, u, RemoveAll(ApplyAll(t0, ps), order), hook, pkt);
  }

  // ---------- After any history, with commands lost ----------

  /** The operations that plans with nothing in common with B issue. */
  ghost predicate ForeignOp(B: set<Plan>, op: Op) {
    match op
    case New(c) => OtherChain(B, c)
    case Flush(c) => OtherChain(B, c)
    case DeleteChain(c) => OtherChain(B, c)
    case Append(c, r) => OtherChain(B, c) && OnlyDrops([r])
    case EnsureAppended(c, r) => c == INPUT && OtherRule(B, r)
    case EnsureInserted(c, r) => c == INPUT && OtherRule(B, r)
    case Delete(c, r) => c == INPUT && !Owned(B, r)
  }

  ghost predicate OtherChain(B: set<Plan>, c: Chain) { c !in {INPUT, FORWARD, OUTPUT} && !OwnedChain(B, c) }

  ghost predicate OtherRule(B: set<Plan>, r: Rule) {
    !Owned(B, r) && (r.target.Jump? ==> OtherChain(B, r.target.chain))
  }

  /** No rule of B, and no jump to one of its chains, is the plain jump to a foreign chain. */
  lemma ForeignCommands(B: set<Plan>, p: Plan)
    requires (forall b :: b in B ==> b.Valid()) && p.Valid() && Foreign(B, p)
    ensures forall cmd :: cmd in ApplyCmds(p) ==> ForeignOp(B, cmd.op)
    ensures forall cmd :: cmd in RemoveCmds(p) ==> ForeignOp(B, cmd.op)
  {
    match p
    case ChainPlan(c, body, _) =>
      assert Owns(p, p.JumpRule()) && OtherChain(B, c);
      var plain := Rule([], Jump(c));
      if Owned(B, plain) { OwnedJumps(B, plain); }
      assert forall r :: r in body ==> OnlyDrops([r]);
    case DirectPlan(rules, _, _) => assert forall r :: r in rules ==> Owns(p, r);
  }

  /** t is a ruleset without traces of B, and u is t with parts of B in it. */
  ghost predicate Mirrors(B: set<Plan>, t: Table, u: Table) { Clean(B, t) && Overlay(B, t, u) }

  lemma EditedChainClean(B: set<Plan>, t: Table, c: Chain, rules: seq<Rule>)
    requires Clean(B, t) && OtherChain(B, c) && forall r :: r in rules ==> TargetKnown(t, r)
    ensures Clean(B, t.(chains := t.chains[c := rules]))
  {
  }

  lemma EditedChainMirrors(B: set<Plan>, t: Table, u: Table, c: Chain, rules: seq<Rule>)
    requires Mirrors(B, t, u) && OtherChain(B, c) && forall r :: r in rules ==> TargetKnown(t, r)
    ensures Mirrors(B, t.(chains := t.chains[c := rules]), u.(chains := u.chains[c := rules]))
  {
    EditedChainClean(B, t, c, rules);
    var t', u' := t.(chains := t.chains[c := rules]), u.(chains := u.chains[c := rules]);
    assert forall r :: TargetKnown(u, r) ==> TargetKnown(u', r);
    assert ChainsKept(B, t', u');
  }

  lemma SameChain(B: set<Plan>, t: Table, u: Table, c: Chain)
    requires Mirrors(B, t, u) && OtherChain(B, c)
    ensures c in t.chains <==> c in u.chains
    ensures c in t.chains ==> u.chains[c] == t.chains[c]
  {
  }

  lemma DeletedChainMirrors(B: set<Plan>, t: Table, u: Table, c: Chain)
    requires Mirrors(B, t, u) && OtherChain(B, c)
    ensures Mirrors(B, Effect(t, DeleteChain(c)), Effect(u, DeleteChain(c)))
  {
    SameChain(B, t, u, c);
    SameReferences(B, t, u, c);
    assert t.policy == u.policy;
    if Succeeds(t, DeleteChain(c)) {
      assert Effect(t, DeleteChain(c)) == t.(chains := t.chains - {c});
      assert Effect(u, DeleteChain(c)) == u.(chains := u.chains - {c});
      WithoutChain(B, t, u, c);
    }
  }

  lemma SameReferences(B: set<Plan>, t: Table, u: Table, c: Chain)
    requires Mirrors(B, t, u) && OtherChain(B, c)
    ensures (forall d :: d in t.chains ==> !References(t.chains[d], c))
       <==> (forall d :: d in u.chains ==> !References(u.chains[d], c))
  {
    StripKeeps(B, u.chains[INPUT]);
    forall d | d in u.chains ensures References(u.chains[d], c) <==> d in t.chains && References(t.chains[d], c) {
      if d == INPUT {
        forall r | r in u.chains[INPUT] && r.target == Jump(c) ensures r in t.chains[INPUT] {
          if Owned(B, r) { OwnedJumps(B, r); }
        }
      }
    }
  }

  lemma CleanWithoutChain(B: set<Plan>, t: Table, c: Chain)
    requires Clean(B, t) && OtherChain(B, c) && forall d :: d in t.chains ==> !References(t.chains[d], c)
    ensures Clean(B, t.(chains := t.chains - {c}))
  {
    var t' := t.(chains := t.chains - {c});
    forall d, r | d in t'.chains && r in t'.chains[d] && r.target.Jump?
      ensures r.target.chain in t'.chains && r.target.chain !in t'.policy
    {
      assert !References(t.chains[d], c);
    }
    assert INPUT in t'.chains && t'.chains[INPUT] == t.chains[INPUT];
  }

  lemma WithoutChain(B: set<Plan>, t: Table, u: Table, c: Chain)
    requires Mirrors(B, t, u) && OtherChain(B, c)
    requires forall d :: d in t.chains ==> !References(t.chains[d], c)
    ensures Mirrors(B, t.(chains := t.chains - {c}), u.(chains := u.chains - {c}))
  {
    var t', u' := t.(chains := t.chains - {c}), u.(chains := u.chains - {c});
    CleanWithoutChain(B, t, c);
    assert ChainsKept(B, t', u');
    assert u'.chains[INPUT] == u.chains[INPUT] && t'.chains[INPUT] == t.chains[INPUT];
    forall r | r in u.chains[INPUT] && Owned(B, r) ensures TargetKnown(u', r) {
      assert TargetKnown(u, r);
      if r.target.Jump? { OwnedJumps(B, r); }
    }
  }

  lemma EditedInputMirrors(B: set<Plan>, t: Table, u: Table, rules: seq<Rule>, rules': seq<Rule>)
    requires Mirrors(B, t, u) && Strip(B, rules') == rules
    requires forall r :: r in rules && r.target.Jump? ==> r.target.chain in t.chains && r.target.chain !in t.policy
    requires SameOwned(B, u.chains[INPUT], rules')
    ensures Mirrors(B, t.(chains := t.chains[INPUT := rules]), u.(chains := u.chains[INPUT := rules']))
  {
    var t', u' := t.(chains := t.chains[INPUT := rules]), u.(chains := u.chains[INPUT := rules']);
    StripKeeps(B, rules');
    assert Clean(B, t');
    assert forall r :: TargetKnown(u, r) ==> TargetKnown(u', r);
    assert ChainsKept(B, t', u') && InputKept(B, t', u');
  }

  /** The rules of B stand in `after` as often as in `before`. */
  ghost predicate SameOwned(B: set<Plan>, before: seq<Rule>, after: seq<Rule>) {
    forall r :: r in after && Owned(B, r) ==> r in before && multiset(after)[r] == multiset(before)[r]
  }

  lemma EnsuredKeepsOwned(B: set<Plan>, front: bool, rules: seq<Rule>, r: Rule)
    requires !Owned(B, r)
    ensures SameOwned(B, rules, Ensured(front, rules, r))
  {
    var after := Ensured(front, rules, r);
    assert multiset(after) == multiset(rules) || multiset(after) == multiset(rules) + multiset{r};
    forall x | x in after && Owned(B, x) ensures x in rules && multiset(after)[x] == multiset(rules)[x] {
      assert x != r && x in multiset(after);
      assert x in multiset(rules);
    }
  }

  lemma RemovedKeepsOwned(B: set<Plan>, rules: seq<Rule>, r: Rule)
    requires r in rules && !Owned(B, r)
    ensures SameOwned(B, rules, RemoveFirst(rules, r))
    ensures forall x :: x in RemoveFirst(rules, r) ==> x in rules
  {
    var left := RemoveFirst(rules, r);
    forall x | x in left ensures x in rules && (x != r ==> multiset(left)[x] == multiset(rules)[x]) {
      assert x in multiset(left);
      assert x in multiset(rules);
    }
  }

  lemma EnsureEffect(t: Table, front: bool, r: Rule)
    requires INPUT in t.chains
    ensures Effect(t, EnsureOp(front, r))
         == if r in t.chains[INPUT] || !TargetKnown(t, r) then t
            else t.(chains := t.chains[INPUT := Ensured(front, t.chains[INPUT], r)])
  {
  }

  lemma EnsuredRuleMirrors(B: set<Plan>, t: Table, u: Table, front: bool, r: Rule)
    requires Mirrors(B, t, u) && OtherRule(B, r)
    ensures Mirrors(B, Effect(t, EnsureOp(front, r)), Effect(u, EnsureOp(front, r)))
  {
    var rules, rules' := t.chains[INPUT], u.chains[INPUT];
    StripKeeps(B, rules');
    if r.target.Jump? { SameChain(B, t, u, r.target.chain); }
    assert r in rules <==> r in rules';
    EnsureEffect(t, front, r);
    EnsureEffect(u, front, r);
    assert TargetKnown(t, r) <==> TargetKnown(u, r);
    if r !in rules && TargetKnown(t, r) {
      StripEnsured(B, front, rules', r);
      EnsuredKeepsOwned(B, front, rules', r);
      EditedInputMirrors(B, t, u, Ensured(front, rules, r), Ensured(front, rules', r));
    }
  }

  lemma StripCons(B: set<Plan>, x: Rule, rest: seq<Rule>)
    ensures Strip(B, [x] + rest) == (if Owned(B, x) then [] else [x]) + Strip(B, rest)
  {
    assert ([x] + rest)[1..] == rest;
  }

  lemma RemoveFirstCons(x: Rule, rest: seq<Rule>, r: Rule)
    requires x != r && r in rest
    ensures RemoveFirst([x] + rest, r) == [x] + RemoveFirst(rest, r)
  {
    assert ([x] + rest)[1..] == rest;
  }

  lemma {:induction false} StripOtherRemoved(B: set<Plan>, rules: seq<Rule>, r: Rule)
    requires r in rules && !Owned(B, r)
    ensures r in Strip(B, rules) && Strip(B, RemoveFirst(rules, r)) == RemoveFirst(Strip(B, rules), r)
  {
    var x, rest := rules[0], rules[1..];
    assert rules == [x] + rest;
    StripCons(B, x, rest);
    if x == r {
      RemoveFirstHead(r, rest);
      RemoveFirstHead(r, Strip(B, rest));
    } else {
      StripOtherRemoved(B, rest, r);
      StripStep(B, x, rest, r);
    }
  }

  lemma RemoveFirstHead(r: Rule, rest: seq<Rule>)
    ensures RemoveFirst([r] + rest, r) == rest
  {
    assert ([r] + rest)[0] == r && ([r] + rest)[1..] == rest;
  }

  lemma StripStep(B: set<Plan>, x: Rule, rest: seq<Rule>, r: Rule)
    requires x != r && r in rest && r in Strip(B, rest)
    requires Strip(B, RemoveFirst(rest, r)) == RemoveFirst(Strip(B, rest), r)
    ensures r in Strip(B, [x] + rest)
    ensures Strip(B, RemoveFirst([x] + rest, r)) == RemoveFirst(Strip(B, [x] + rest), r)
  {
    RemoveFirstCons(x, rest, r);
    StripCons(B, x, rest);
    StripCons(B, x, RemoveFirst(rest, r));
    if Owned(B, x) {
      assert Strip(B, [x] + rest) == Strip(B, rest);
    } else {
      RemoveFirstCons(x, Strip(B, rest), r);
    }
  }

  lemma DeletedRuleMirrors(B: set<Plan>, t: Table, u: Table, r: Rule)
    requires Mirrors(B, t, u) && !Owned(B, r)
    ensures Mirrors(B, Effect(t, Delete(INPUT, r)), Effect(u, Delete(INPUT, r)))
  {
    var rules, rules' := t.chains[INPUT], u.chains[INPUT];
    StripKeeps(B, rules');
    assert r in rules <==> r in rules';
    if r in rules {
      StripOtherRemoved(B, rules', r);
      RemovedKeepsOwned(B, rules', r);
      RemovedKeepsOwned(B, rules, r);
      EditedInputMirrors(B, t, u, RemoveFirst(rules, r), RemoveFirst(rules', r));
    }
  }

  /** An operation of another plan has the same effect with B in the ruleset and without. */
  lemma ForeignEffect(B: set<Plan>, t: Table, u: Table, op: Op)
    requires Mirrors(B, t, u) && ForeignOp(B, op)
    ensures Mirrors(B, Effect(t, op), Effect(u, op))
  {
    match op
    case New(c) =>
      SameChain(B, t, u, c);
      EditedChainMirrors(B, t, u, c, []);
    case Flush(c) =>
      SameChain(B, t, u, c);
      EditedChainMirrors(B, t, u, c, []);
    case Append(c, r) =>
      SameChain(B, t, u, c);
      if c in t.chains { EditedChainMirrors(B, t, u, c, t.chains[c] + [r]); }
    case DeleteChain(c) => DeletedChainMirrors(B, t, u, c);
    case EnsureAppended(_, r) => EnsuredRuleMirrors(B, t, u, false, r);
    case EnsureInserted(_, r) => EnsuredRuleMirrors(B, t, u, true, r);
    case Delete(_, r) => DeletedRuleMirrors(B, t, u, r);
  }

  lemma {:induction false} ForeignRun(B: set<Plan>, t: Table, u: Table, cmds: seq<Cmd>, fates: seq<Fate>)
    requires Mirrors(B, t, u) && |fates| == |cmds| && forall cmd :: cmd in cmds ==> ForeignOp(B, cmd.op)
    ensures Mirrors(B, Run(t, cmds, fates), Run(u, cmds, fates))
    decreases |cmds|
  {
    if cmds != [] {
      assert cmds[0] in cmds;
      ForeignEffect(B, t, u, cmds[0].op);
      ForeignRun(B, Perform(t, cmds[0], fates[0]), Perform(u, cmds[0], fates[0]), cmds[1..], fates[1..]);
    }
  }

  /** The history without what was done about the plans of B. */
  function Others(actions: seq<Action>, B: set<Plan>): (os: seq<Action>)
    ensures forall a :: a in os ==> a in actions && a.p !in B
  {
    if actions == [] then []
    else (if actions[0].p in B then [] else [actions[0]]) + Others(actions[1..], B)
  }

  lemma {:induction false} HistoryMirrors(B: set<Plan>, t: Table, u: Table, actions: seq<Action>)
    requires Mirrors(B, t, u)
    requires forall a :: a in actions ==> a.Valid() && a.p.Valid() && (a.p in B || Foreign(B, a.p))
    ensures Mirrors(B, RunActions(t, Others(actions, B)), RunActions(u, actions))
    decreases |actions|
  {
    if actions != [] {
      var a, rest := actions[0], actions[1..];
      assert a in actions;
      ActionMirrors(B, t, u, a);
      HistoryMirrors(B, AfterOther(t, a, B), Run(u, a.Cmds(), a.fates), rest);
      OthersFirst(t, actions, B);
    }
  }

  function AfterOther(t: Table, a: Action, B: set<Plan>): Table
    requires a.Valid()
  {
    if a.p in B then t else Run(t, a.Cmds(), a.fates)
  }

  lemma ActionMirrors(B: set<Plan>, t: Table, u: Table, a: Action)
    requires Mirrors(B, t, u) && a.Valid() && a.p.Valid() && (a.p in B || Foreign(B, a.p))
    ensures Mirrors(B, AfterOther(t, a, B), Run(u, a.Cmds(), a.fates))
  {
    if a.p in B {
      CommandsAllowed(B, a.p);
      RunKeepsOverlay(B, t, u, a.Cmds(), a.fates);
    } else {
      ForeignCommands(B, a.p);
      ForeignRun(B, t, u, a.Cmds(), a.fates);
    }
  }

  lemma OthersFirst(t: Table, actions: seq<Action>, B: set<Plan>)
    requires actions != [] && forall a :: a in actions ==> a.Valid()
    ensures actions[0].Valid()
    ensures RunActions(t, Others(actions, B)) == RunActions(AfterOther(t, actions[0], B), Others(actions[1..], B))
  {
    assert actions[0] in actions;
    if actions[0].p in B {
      assert Others(actions, B) == Others(actions[1..], B);
    } else {
      assert Others(actions, B)[1..] == Others(actions[1..], B);
    }
  }

  lemma OthersAcyclic(S: set<Plan>, t0: Table, actions: seq<Action>)
    requires Clean(S, t0) && Acyclic(t0) && forall a :: a in actions ==> a.Valid() && a.p in S
    ensures Acyclic(RunActions(t0, actions))
  {
    CleanIsOverlay(S, t0);
    ActionsKeepOverlay(S, t0, t0, actions);
    var rank :| Ranked(t0, rank);
    LiftRanks(S, t0, RunActions(t0, actions), rank);
  }

  lemma CleanPart(S: set<Plan>, B: set<Plan>, t0: Table)
    requires Clean(S, t0) && B <= S
    ensures Clean(B, t0)
  {
    assert forall c :: OwnedChain(B, c) ==> OwnedChain(S, c);
    assert forall r :: Owned(B, r) ==> Owned(S, r);
  }

  /** After any history of installations and removals, with any commands lost, removing some
      of the plans completely gives every packet at every hook the verdict it would have if
      these plans had never been touched and the rest of the history, losses included, had
      been the same. */
  lemma RemovingSomeUndoesTheirHistory(S: set<Plan>, B: set<Plan>, t0: Table, actions: seq<Action>, order: seq<Plan>,
                                       hook: Chain, pkt: Packet)
    requires Clean(S, t0) && Acyclic(t0) && hook in t0.policy
    requires B <= S && forall p :: p in S && p !in B ==> Foreign(B, p)
    requires forall a :: a in actions ==> a.Valid() && a.p in S
    requires forall p :: p in order <==> p in B
    ensures var t := RemoveAll(RunActions(t0, actions), order);
            var u := RunActions(t0, Others(actions, B));
            && hook in t.policy && hook in t.chains && hook in u.policy && hook in u.chains
            && Acyclic(t) && Acyclic(u) && VerdictOf(t, hook, pkt) == VerdictOf(u, hook, pkt)
  {
    var u := RunActions(t0, Others(actions, B));
    CleanPart(S, B, t0);
    CleanIsOverlay(B, t0);
    HistoryMirrors(B, t0, t0, actions);
    OthersAcyclic(S, t0, Others(actions, B));
    RemovingAllMakesGone(B, u, RunActions(t0, actions), order);
    GoneMeansRestored(B, u, RemoveAll(RunActions(t0, actions), order), hook, pkt);
  }
}
