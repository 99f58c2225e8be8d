/** Installing and removing protections: what every run keeps of the operator's
    ruleset, and that removal gives every packet its old verdict back. */
module PlanRuns {
  import opened Netfilter
  import opened Plans

  // ---------- What a set of protections owns ----------

  predicate Owns(p: Plan, r: Rule) {
    if p.ChainPlan? then r == p.JumpRule() else r in p.rules
  }

  ghost predicate Owned(S: set<Plan>, r: Rule) {
    exists p :: p in S && Owns(p, r)
  }

  ghost predicate OwnedChain(S: set<Plan>, c: Chain) {
    exists p :: p in S && p.ChainPlan? && p.chain == c
  }

  /** The rules that are not owned, in order. */
  ghost function Strip(S: set<Plan>, rules: seq<Rule>): seq<Rule> {
    if rules == [] then []
    else (if Owned(S, rules[0]) then [] else [rules[0]]) + Strip(S, rules[1..])
  }

  lemma {:induction false} StripConcat(S: set<Plan>, xs: seq<Rule>, ys: seq<Rule>)
    ensures Strip(S, xs + ys) == Strip(S, xs) + Strip(S, ys)
  {
    if xs == [] {
      assert xs + ys == ys;
    } else {
      assert (xs + ys)[1..] == xs[1..] + ys;
      StripConcat(S, xs[1..], ys);
    }
  }

  lemma {:induction false} StripKeeps(S: set<Plan>, rules: seq<Rule>)
    ensures forall r :: r in Strip(S, rules) <==> r in rules && !Owned(S, r)
    ensures (forall r :: r in rules ==> !Owned(S, r)) ==> Strip(S, rules) == rules
  {
    if rules != [] {
      assert rules == [rules[0]] + rules[1..];
      StripKeeps(S, rules[1..]);
    }
  }

  lemma {:induction false} StripRemoved(S: set<Plan>, rules: seq<Rule>, r: Rule)
    requires r in rules && Owned(S, r)
    ensures Strip(S, RemoveFirst(rules, r)) == Strip(S, rules)
  {
    if rules[0] != r {
      assert rules == [rules[0]] + rules[1..];
      StripRemoved(S, rules[1..], r);
      assert RemoveFirst(rules, r)[1..] == RemoveFirst(rules[1..], r);
    }
  }

  // ---------- The overlay: the operator's table plus owned parts ----------

  /** None of the protections of S has left a trace in t0. */
  ghost predicate Clean(S: set<Plan>, t0: Table) {
    && WellFormed(t0)
    && (forall p :: p in S ==> p.Valid())
    && (forall c :: OwnedChain(S, c) ==> c !in t0.chains)
    && (forall r :: r in t0.chains[INPUT] ==> !Owned(S, r))
  }

  /** t is t0 with owned chains, which only drop, and owned rules somewhere in
      INPUT, each at most once. */
  ghost predicate Overlay(S: set<Plan>, t0: Table, t: Table) {
    ChainsKept(S, t0, t) && InputKept(S, t0, t)
  }

  ghost predicate ChainsKept(S: set<Plan>, t0: Table, t: Table) {
    && t.policy == t0.policy
    && t0.chains.Keys <= t.chains.Keys
    && (forall c :: c in t0.chains && c != INPUT ==> t.chains[c] == t0.chains[c])
    && (forall c :: c in t.chains && c !in t0.chains ==> OwnedChain(S, c) && OnlyDrops(t.chains[c]))
  }

  ghost predicate InputKept(S: set<Plan>, t0: Table, t: Table) {
    && INPUT in t.chains && INPUT in t0.chains
    && Strip(S, t.chains[INPUT]) == t0.chains[INPUT]
    && (forall r :: r in t.chains[INPUT] && Owned(S, r) ==>
          multiset(t.chains[INPUT])[r] == 1 && TargetKnown(t, r))
  }

  /** The operations the protections of S issue. */
  ghost predicate Allowed(S: set<Plan>, op: Op) {
    match op
    case New(c) => OwnedChain(S, c)
    case Flush(c) => OwnedChain(S, c)
    case DeleteChain(c) => OwnedChain(S, c)
    case Append(c, r) => OwnedChain(S, c) && OnlyDrops([r])
    case EnsureAppended(c, r) => c == INPUT && Owned(S, r)
    case EnsureInserted(c, r) => c == INPUT && Owned(S, r)
    case Delete(c, r) => c == INPUT && (Owned(S, r) || (r.target.Jump? && OwnedChain(S, r.target.chain)))
  }

  lemma CommandsAllowed(S: set<Plan>, p: Plan)
    requires p in S && p.Valid()
    ensures forall cmd :: cmd in ApplyCmds(p) ==> Allowed(S, cmd.op)
    ensures forall cmd :: cmd in RemoveCmds(p) ==> Allowed(S, cmd.op)
  {
    if p.ChainPlan? {
      assert OwnedChain(S, p.chain) && Owns(p, p.JumpRule());
    } else {
      assert forall r :: r in p.rules ==> Owns(p, r);
    }
  }

  lemma OwnedJumps(S: set<Plan>, r: Rule)
    requires (forall p :: p in S ==> p.Valid()) && Owned(S, r) && r.target.Jump?
    ensures OwnedChain(S, r.target.chain)
  {
    var p :| p in S && Owns(p, r);
  }

  /** In an overlay, only owned rules jump to owned chains. */
  lemma JumpsToOwnedChainsAreOwned(S: set<Plan>, t0: Table, t: Table, r: Rule)
    requires Clean(S, t0) && Overlay(S, t0, t)
    requires r in t.chains[INPUT] && r.target.Jump? && OwnedChain(S, r.target.chain)
    ensures Owned(S, r)
  {
    StripKeeps(S, t.chains[INPUT]);
  }

  lemma InputEdited(S: set<Plan>, t0: Table, t: Table, rules: seq<Rule>)
    requires Overlay(S, t0, t)
    requires Strip(S, rules) == t0.chains[INPUT]
    requires forall r :: r in rules && Owned(S, r) ==> multiset(rules)[r] == 1 && TargetKnown(t, r)
    ensures Overlay(S, t0, t.(chains := t.chains[INPUT := rules]))
  {
    var t' := t.(chains := t.chains[INPUT := rules]);
    assert t'.chains.Keys == t.chains.Keys;
    assert forall r :: TargetKnown(t, r) ==> TargetKnown(t', r);
  }

  lemma ChainEdited(S: set<Plan>, t0: Table, t: Table, c: Chain, rules: seq<Rule>)
    requires Clean(S, t0) && Overlay(S, t0, t)
    requires OwnedChain(S, c) && OnlyDrops(rules)
    ensures Overlay(S, t0, t.(chains := t.chains[c := rules]))
  {
    var t' := t.(chains := t.chains[c := rules]);
    assert c !in t0.chains && t'.chains[INPUT] == t.chains[INPUT];
    assert forall r :: TargetKnown(t, r) ==> TargetKnown(t', r);
  }

  lemma ChainDeleted(S: set<Plan>, t0: Table, t: Table, c: Chain)
    requires Clean(S, t0) && Overlay(S, t0, t)
    requires OwnedChain(S, c) && !References(t.chains[INPUT], c)
    ensures Overlay(S, t0, t.(chains := t.chains - {c}))
  {
  }

  lemma RuleEnsured(S: set<Plan>, t0: Table, t: Table, op: Op)
    requires Clean(S, t0) && Overlay(S, t0, t) && Allowed(S, op) && Succeeds(t, op)
    requires op.EnsureAppended? || op.EnsureInserted?
    ensures Overlay(S, t0, Effect(t, op))
  {
    var rules, r := t.chains[INPUT], op.rule;
    if r !in rules {
      assert Strip(S, [r]) == [];
      StripConcat(S, rules, [r]);
      StripConcat(S, [r], rules);
      assert r !in multiset(rules);
      InputEdited(S, t0, t, if op.EnsureAppended? then rules + [r] else [r] + rules);
    }
  }

  lemma RuleDeleted(S: set<Plan>, t0: Table, t: Table, r: Rule)
    requires Clean(S, t0) && Overlay(S, t0, t) && Allowed(S, Delete(INPUT, r)) && r in t.chains[INPUT]
    ensures Owned(S, r)
    ensures r !in RemoveFirst(t.chains[INPUT], r)
    ensures Overlay(S, t0, Effect(t, Delete(INPUT, r)))
  {
    var rules := t.chains[INPUT];
    var left := RemoveFirst(rules, r);
    if !Owned(S, r) {
      JumpsToOwnedChainsAreOwned(S, t0, t, r);
    }
    StripRemoved(S, rules, r);
    RemovedOnce(rules, r);
    InputEdited(S, t0, t, left);
  }

  /** Taking out the one copy of r leaves every other rule as often as it was. */
  lemma RemovedOnce(rules: seq<Rule>, r: Rule)
    requires r in rules
    ensures var left := RemoveFirst(rules, r);
            && (forall x :: x in left ==> x in rules)
            && (multiset(rules)[r] == 1 ==> forall x :: x in left ==> x != r && multiset(left)[x] == multiset(rules)[x])
  {
    var left := RemoveFirst(rules, r);
    forall x | x in left
      ensures x in rules
      ensures multiset(rules)[r] == 1 ==> x != r && multiset(left)[x] == multiset(rules)[x]
    {
      assert x in multiset(left);
      assert x in multiset(rules);
    }
  }

  /** Each operation of the protections keeps the operator's part of the table. */
  lemma EffectKeepsOverlay(S: set<Plan>, t0: Table, t: Table, op: Op)
    requires Clean(S, t0) && Overlay(S, t0, t) && Allowed(S, op)
    ensures Overlay(S, t0, Effect(t, op))
  {
    if Succeeds(t, op) {
      match op
      case New(c) => ChainEdited(S, t0, t, c, []);
      case Flush(c) => ChainEdited(S, t0, t, c, []);
      case Append(c, r) => ChainEdited(S, t0, t, c, t.chains[c] + [r]);
      case DeleteChain(c) => ChainDeleted(S, t0, t, c);
      case Delete(c, r) => RuleDeleted(S, t0, t, r);
      case EnsureAppended(_, _) => RuleEnsured(S, t0, t, op);
      case EnsureInserted(_, _) => RuleEnsured(S, t0, t, op);
    }
  }

  lemma {:induction false} RunKeepsOverlay(S: set<Plan>, t0: Table, t: Table, cmds: seq<Cmd>, fates: seq<Fate>)
    requires Clean(S, t0) && Overlay(S, t0, t) && |fates| == |cmds|
    requires forall cmd :: cmd in cmds ==> Allowed(S, cmd.op)
    ensures Overlay(S, t0, Run(t, cmds, fates))
    decreases |cmds|
  {
    if cmds != [] {
      assert cmds[0] in cmds;
      EffectKeepsOverlay(S, t0, t, cmds[0].op);
      RunKeepsOverlay(S, t0, Perform(t, cmds[0], fates[0]), cmds[1..], fates[1..]);
    }
  }

  lemma {:induction false} RunAllKeepsOverlay(S: set<Plan>, t0: Table, t: Table, cmds: seq<Cmd>)
    requires Clean(S, t0) && Overlay(S, t0, t)
    requires forall cmd :: cmd in cmds ==> Allowed(S, cmd.op)
    ensures Overlay(S, t0, RunAll(t, cmds))
  {
    var fates := seq(|cmds|, _ => Delivered(""));
    RunDelivered(t, cmds, fates);
    RunKeepsOverlay(S, t0, t, cmds, fates);
  }

  lemma CleanIsOverlay(S: set<Plan>, t0: Table)
    requires Clean(S, t0)
    ensures Overlay(S, t0, t0)
  {
    StripKeeps(S, t0.chains[INPUT]);
  }

  // ---------- Meaning of an overlay ----------

  ghost function Lift(S: set<Plan>, rank: Chain -> nat): Chain -> nat {
    c => if OwnedChain(S, c) then 0 else rank(c) + 1
  }

  lemma LiftRanks(S: set<Plan>, t0: Table, t: Table, rank: Chain -> nat)
    requires Clean(S, t0) && Overlay(S, t0, t) && Ranked(t0, rank)
    ensures Ranked(t0, Lift(S, rank)) && Ranked(t, Lift(S, rank))
  {
    var up := Lift(S, rank);
    forall c | c in t0.chains ensures AllBelow(t0, up, up(c), t0.chains[c]) {
      assert AllBelow(t0, rank, rank(c), t0.chains[c]);
      forall r | r in t0.chains[c] ensures Below(t0, up, up(c), r) {
        assert Below(t0, rank, rank(c), r);
      }
    }
    forall c, r | c in t.chains && r in t.chains[c] ensures Below(t, up, up(c), r) {
      if c in t0.chains {
        StripKeeps(S, t.chains[INPUT]);
        if c == INPUT && Owned(S, r) {
          if r.target.Jump? { OwnedJumps(S, r); }
        } else {
          assert AllBelow(t0, up, up(c), t0.chains[c]) && Below(t0, up, up(c), r);
        }
      }
    }
    forall c | c in t.chains ensures AllBelow(t, up, up(c), t.chains[c]) {
    }
  }

  /** The operator's chains other than INPUT mean the same under the overlay. */
  lemma {:induction false} WalkOperatorChain(S: set<Plan>, t0: Table, t: Table, rank: Chain -> nat,
                                             pkt: Packet, rules: seq<Rule>, limit: nat)
    requires Clean(S, t0) && Overlay(S, t0, t) && Ranked(t0, rank) && Ranked(t, rank)
    requires AllBelow(t0, rank, limit, rules) && AllBelow(t, rank, limit, rules)
    requires forall r :: r in rules && r.target.Jump? ==> r.target.chain != INPUT
    ensures Walk(t, rank, pkt, rules, limit) == Walk(t0, rank, pkt, rules, limit)
    decreases limit, |rules|
  {
    if rules != [] {
      var r := rules[0];
      assert Below(t0, rank, limit, r) && Below(t, rank, limit, r);
      WalkOperatorChain(S, t0, t, rank, pkt, rules[1..], limit);
      if r.target.Jump? {
        var d := r.target.chain;
        WalkOperatorChain(S, t0, t, rank, pkt, t0.chains[d], rank(d));
      }
    }
  }

  /** p no longer affects packets: its chain is empty or gone, its direct rules are gone. */
  ghost predicate Gone(p: Plan, t: Table) {
    if p.ChainPlan? then p.chain in t.chains ==> t.chains[p.chain] == []
    else INPUT in t.chains && forall r :: r in p.rules ==> r !in t.chains[INPUT]
  }

  /** A rule of a protection that is gone lets every packet pass on. */
  lemma GoneRuleIsIdle(S: set<Plan>, t: Table, rank: Chain -> nat, r: Rule)
    requires Ranked(t, rank) && INPUT in t.chains && r in t.chains[INPUT] && Owned(S, r)
    requires forall p :: p in S ==> Gone(p, t)
    ensures r.target.Jump? && (r.target.chain in t.chains ==> t.chains[r.target.chain] == [])
  {
    var p :| p in S && Owns(p, r);
    assert Gone(p, t);
  }

  /** With every protection gone, INPUT means what it means without the owned rules. */
  lemma {:induction false} WalkStripped(S: set<Plan>, t0: Table, t: Table, rank: Chain -> nat,
                                        pkt: Packet, rules: seq<Rule>, limit: nat)
    requires Clean(S, t0) && Overlay(S, t0, t) && Ranked(t0, rank) && Ranked(t, rank)
    requires AllBelow(t, rank, limit, rules) && AllBelow(t0, rank, limit, Strip(S, rules))
    requires forall p :: p in S ==> Gone(p, t)
    requires forall r :: r in rules ==> r in t.chains[INPUT]
    ensures Walk(t, rank, pkt, rules, limit) == Walk(t0, rank, pkt, Strip(S, rules), limit)
    decreases |rules|
  {
    if rules != [] {
      var r, rest := rules[0], rules[1..];
      assert r in t.chains[INPUT] && Below(t, rank, limit, r);
      assert AllBelow(t0, rank, limit, Strip(S, rest)) by {
        assert forall x :: x in Strip(S, rest) ==> x in Strip(S, rules);
      }
      WalkStripped(S, t0, t, rank, pkt, rest, limit);
      if Owned(S, r) {
        GoneRuleIsIdle(S, t, rank, r);
        IdleRule(t, rank, pkt, rules, limit);
        assert Strip(S, rules) == Strip(S, rest);
      } else {
        assert Strip(S, rules) == [r] + Strip(S, rest);
        assert r in Strip(S, rules) && Below(t0, rank, limit, r);
        if r.target.Jump? { OperatorJump(S, t0, t, rank, pkt, r, limit); }
        SameRule(t0, t, rank, pkt, Strip(S, rules), rules, limit);
      }
    }
  }

  lemma IdleRule(t: Table, rank: Chain -> nat, pkt: Packet, rules: seq<Rule>, limit: nat)
    requires Ranked(t, rank) && AllBelow(t, rank, limit, rules)
    requires rules != [] && rules[0].target.Jump?
    requires rules[0].target.chain in t.chains ==> t.chains[rules[0].target.chain] == []
    ensures Walk(t, rank, pkt, rules, limit) == Walk(t, rank, pkt, rules[1..], limit)
  {
    assert Below(t, rank, limit, rules[0]);
  }

  /** Two lists that start with the same rule are walked alike if what follows it is and
      the rule's jump, if any, is. */
  lemma SameRule(t0: Table, t: Table, rank: Chain -> nat, pkt: Packet,
                 rules0: seq<Rule>, rules: seq<Rule>, limit: nat)
    requires Ranked(t0, rank) && Ranked(t, rank)
    requires AllBelow(t0, rank, limit, rules0) && AllBelow(t, rank, limit, rules)
    requires rules0 != [] && rules != [] && rules0[0] == rules[0]
    requires Below(t0, rank, limit, rules[0]) && Below(t, rank, limit, rules[0])
    requires rules[0].target.Jump? ==>
               var d := rules[0].target.chain;
               Walk(t, rank, pkt, t.chains[d], rank(d)) == Walk(t0, rank, pkt, t0.chains[d], rank(d))
    requires Walk(t, rank, pkt, rules[1..], limit) == Walk(t0, rank, pkt, rules0[1..], limit)
    ensures Walk(t, rank, pkt, rules, limit) == Walk(t0, rank, pkt, rules0, limit)
  {
  }

  lemma OperatorJump(S: set<Plan>, t0: Table, t: Table, rank: Chain -> nat, pkt: Packet, r: Rule, limit: nat)
    requires Clean(S, t0) && Overlay(S, t0, t) && Ranked(t0, rank) && Ranked(t, rank)
    requires r in t.chains[INPUT] && !Owned(S, r) && r.target.Jump?
    requires Below(t, rank, limit, r) && Below(t0, rank, limit, r)
    ensures var d := r.target.chain;
            Walk(t, rank, pkt, t.chains[d], rank(d)) == Walk(t0, rank, pkt, t0.chains[d], rank(d))
  {
    var d := r.target.chain;
    StripKeeps(S, t.chains[INPUT]);
    assert r in t0.chains[INPUT];
    assert d != INPUT && t.chains[d] == t0.chains[d];
    WalkOperatorChain(S, t0, t, rank, pkt, t0.chains[d], rank(d));
  }

  /** Whatever protections are installed, the other hooks treat every packet as before. */
  lemma OtherHooksUntouched(S: set<Plan>, t0: Table, t: Table, hook: Chain, pkt: Packet)
    requires Clean(S, t0) && Overlay(S, t0, t) && Acyclic(t0)
    requires hook in t0.policy && hook != INPUT
    ensures Acyclic(t) && VerdictOf(t, hook, pkt) == VerdictOf(t0, hook, pkt)
  {
    var rank :| Ranked(t0, rank);
    LiftRanks(S, t0, t, rank);
    var up := Lift(S, rank);
    WalkOperatorChain(S, t0, t, up, pkt, t0.chains[hook], up(hook));
    VerdictAnyRank(t0, up, hook, pkt);
    VerdictAnyRank(t, up, hook, pkt);
  }

  /** Once every protection of S is gone, all verdicts are the original ones. */
  lemma GoneMeansRestored(S: set<Plan>, t0: Table, t: Table, hook: Chain, pkt: Packet)
    requires Clean(S, t0) && Overlay(S, t0, t) && Acyclic(t0) && hook in t0.policy
    requires forall p :: p in S ==> Gone(p, t)
    ensures Acyclic(t) && VerdictOf(t, hook, pkt) == VerdictOf(t0, hook, pkt)
  {
    if hook != INPUT {
      OtherHooksUntouched(S, t0, t, hook, pkt);
    } else {
      var rank :| Ranked(t0, rank);
      LiftRanks(S, t0, t, rank);
      var up := Lift(S, rank);
      WalkStripped(S, t0, t, up, pkt, t.chains[INPUT], up(INPUT));
      VerdictAnyRank(t0, up, hook, pkt);
      VerdictAnyRank(t, up, hook, pkt);
    }
  }

  // ---------- Runs ----------

  /** One call of the manager, with what happened to each of its commands. */
  datatype Action =
    | Installing(p: Plan, fates: seq<Fate>)
    | Removing(p: Plan, fates: seq<Fate>)
  {
    function Cmds(): seq<Cmd> {
      if Installing? then ApplyCmds(p) else RemoveCmds(p)
    }
    predicate Valid() { |fates| == |Cmds()| }
  }

  function RunActions(t: Table, actions: seq<Action>): Table
    requires forall a :: a in actions ==> a.Valid()
    decreases |actions|
  {
    if actions == [] then t
    else
      assert actions[0].Valid();
      RunActions(Run(t, actions[0].Cmds(), actions[0].fates), actions[1..])
  }

  lemma {:induction false} ActionsKeepOverlay(S: set<Plan>, t0: Table, t: Table, actions: seq<Action>)
    requires Clean(S, t0) && Overlay(S, t0, t)
    requires forall a :: a in actions ==> a.Valid() && a.p in S
    ensures Overlay(S, t0, RunActions(t, actions))
    decreases |actions|
  {
    if actions != [] {
      var a := actions[0];
      assert a in actions;
      CommandsAllowed(S, a.p);
      RunKeepsOverlay(S, t0, t, a.Cmds(), a.fates);
      ActionsKeepOverlay(S, t0, Run(t, a.Cmds(), a.fates), actions[1..]);
    }
  }

  /** t' has the chains of t and no rule in INPUT that t lacks. */
  ghost predicate Shrunk(t: Table, t': Table) {
    && INPUT in t.chains && t'.chains.Keys == t.chains.Keys
    && (forall c :: c in t.chains && c != INPUT ==> t'.chains[c] == t.chains[c])
    && forall r :: r in t'.chains[INPUT] ==> r in t.chains[INPUT]
  }

  lemma DeletionShrinks(S: set<Plan>, t0: Table, t: Table, r: Rule)
    requires Clean(S, t0) && Overlay(S, t0, t) && Allowed(S, Delete(INPUT, r))
    ensures var t' := Effect(t, Delete(INPUT, r));
            Overlay(S, t0, t') && Shrunk(t, t') && r !in t'.chains[INPUT]
  {
    if r in t.chains[INPUT] {
      RuleDeleted(S, t0, t, r);
      RemovedOnce(t.chains[INPUT], r);
    }
  }

  lemma {:induction false} DeletesRemove(S: set<Plan>, t0: Table, t: Table, rules: seq<Rule>)
    requires Clean(S, t0) && Overlay(S, t0, t)
    requires forall r :: r in rules ==> Owned(S, r)
    ensures var t' := RunAll(t, DeleteCmds(rules));
            Shrunk(t, t') && forall r :: r in rules ==> r !in t'.chains[INPUT]
    decreases |rules|
  {
    if rules != [] {
      var r, rest := rules[0], rules[1..];
      var t1 := Effect(t, Delete(INPUT, r));
      DeletionShrinks(S, t0, t, r);
      DeletesRemove(S, t0, t1, rest);
      assert DeleteCmds(rules)[1..] == DeleteCmds(rest);
      assert rules == [r] + rest;
    }
  }

  /** A complete removal makes its protection gone and brings no other one back. */
  lemma RemovalMakesGone(S: set<Plan>, t0: Table, t: Table, p: Plan)
    requires Clean(S, t0) && Overlay(S, t0, t) && p in S
    ensures Overlay(S, t0, Remove(t, p)) && Gone(p, Remove(t, p))
    ensures forall q :: q in S && Gone(q, t) ==> Gone(q, Remove(t, p))
  {
    CommandsAllowed(S, p);
    RunAllKeepsOverlay(S, t0, t, RemoveCmds(p));
    if p.ChainPlan? {
      RemovalOfChain(S, t0, t, p);
    } else {
      assert forall r :: r in p.rules ==> Owns(p, r);
      DeletesRemove(S, t0, t, p.rules);
      forall q | q in S && Gone(q, t) ensures Gone(q, Remove(t, p)) {
      }
    }
  }

  lemma RemovalOfChain(S: set<Plan>, t0: Table, t: Table, p: Plan)
    requires Clean(S, t0) && Overlay(S, t0, t) && p in S && p.ChainPlan?
    ensures Gone(p, Remove(t, p))
    ensures forall q :: q in S && Gone(q, t) ==> Gone(q, Remove(t, p))
  {
    var c, r := p.chain, Rule([], Jump(p.chain));
    assert OwnedChain(S, c) && p.Valid();
    RunThree(t, RemoveCmds(p));
    DeletionShrinks(S, t0, t, r);
    ChainEmptiedAndDeleted(Effect(t, Delete(INPUT, r)), c);
    forall q | q in S && Gone(q, t) ensures Gone(q, Remove(t, p)) {
    }
  }

  lemma ChainEmptiedAndDeleted(t: Table, c: Chain)
    requires c != INPUT
    ensures var t' := Effect(Effect(t, Flush(c)), DeleteChain(c));
            && (c in t'.chains ==> t'.chains[c] == [])
            && t'.chains.Keys <= t.chains.Keys
            && (forall d :: d in t.chains && d != c ==> d in t'.chains && t'.chains[d] == t.chains[d])
  {
  }

  lemma RunThree(t: Table, cmds: seq<Cmd>)
    requires |cmds| == 3
    ensures RunAll(t, cmds) == Effect(Effect(Effect(t, cmds[0].op), cmds[1].op), cmds[2].op)
  {
    var t1 := Effect(t, cmds[0].op);
    var t2 := Effect(t1, cmds[1].op);
    calc {
      RunAll(t, cmds);
      RunAll(t1, cmds[1..]);
      { assert cmds[1..][1..] == cmds[2..]; }
      RunAll(t2, cmds[2..]);
      { assert cmds[2..][1..] == []; }
      RunAll(Effect(t2, cmds[2].op), []);
    }
  }

  lemma {:induction false} RemovingAllMakesGone(S: set<Plan>, t0: Table, t: Table, order: seq<Plan>)
    requires Clean(S, t0) && Overlay(S, t0, t)
    requires forall p :: p in order ==> p in S
    ensures Overlay(S, t0, RemoveAll(t, order))
    ensures forall p :: p in S && (p in order || Gone(p, t)) ==> Gone(p, RemoveAll(t, order))
    decreases |order|
  {
    if order != [] {
      var p, rest := order[0], order[1..];
      var t1 := Remove(t, p);
      assert p in order && order == [p] + rest;
      RemovalMakesGone(S, t0, t, p);
      RemovingAllMakesGone(S, t0, t1, rest);
      assert RemoveAll(t, order) == RemoveAll(t1, rest);
      forall q | q in S && (q in order || Gone(q, t)) ensures Gone(q, RemoveAll(t1, rest)) {
        assert q in rest || Gone(q, t1);
      }
    }
  }

  /** After any run of installations and removals of protections of S, in any order
      and with any commands lost, removing all of S gives every packet at every hook
      the verdict it had before the run. */
  lemma RemovalRestoresVerdicts(S: set<Plan>, t0: Table, actions: seq<Action>, order: seq<Plan>,
                                hook: Chain, pkt: Packet)
    requires Clean(S, t0) && Acyclic(t0) && hook in t0.policy
    requires forall a :: a in actions ==> a.Valid() && a.p in S
    requires forall p :: p in order <==> p in S
    ensures var t := RemoveAll(RunActions(t0, actions), order);
            && t.policy == t0.policy && hook in t.chains && Acyclic(t)
            && VerdictOf(t, hook, pkt) == VerdictOf(t0, hook, pkt)
  {
    CleanIsOverlay(S, t0);
    ActionsKeepOverlay(S, t0, t0, actions);
    var t1 := RunActions(t0, actions);
    RemovingAllMakesGone(S, t0, t1, order);
    GoneMeansRestored(S, t0, RemoveAll(t1, order), hook, pkt);
  }
}
