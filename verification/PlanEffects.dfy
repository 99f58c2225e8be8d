/** What installing leaves on the host: idempotence, rule counts and exact restoration. */
module PlanEffects {
  import opened Netfilter
  import opened Plans
  import opened PlanRuns

  // ---------- The table after one installation ----------

  function Ensured(front: bool, rules: seq<Rule>, r: Rule): seq<Rule> {
    if r in rules then rules else if front then [r] + rules else rules + [r]
  }

  function EnsuredAll(front: bool, rules: seq<Rule>, rs: seq<Rule>): seq<Rule>
    decreases |rs|
  {
    if rs == [] then rules else EnsuredAll(front, Ensured(front, rules, rs[0]), rs[1..])
  }

  function Installation(t: Table, p: Plan): Table
    requires INPUT in t.chains
  {
    match p
    case ChainPlan(c, body, _) =>
      t.(chains := t.chains[c := body][INPUT := Ensured(true, t.chains[INPUT], p.JumpRule())])
    case DirectPlan(rules, front, _) =>
      t.(chains := t.chains[INPUT := EnsuredAll(front, t.chains[INPUT], rules)])
  }

  lemma {:induction false} AppendsBuild(t: Table, c: Chain, rules: seq<Rule>)
    requires c in t.chains && OnlyDrops(rules)
    ensures RunAll(t, AppendCmds(c, rules)) == t.(chains := t.chains[c := t.chains[c] + rules])
    decreases |rules|
  {
    if rules == [] {
      assert t.chains[c] + rules == t.chains[c];
      assert t.chains[c := t.chains[c]] == t.chains;
    } else {
      var t1 := Effect(t, Append(c, rules[0]));
      assert rules[0] in rules;
      AppendsBuild(t1, c, rules[1..]);
      assert AppendCmds(c, rules)[1..] == AppendCmds(c, rules[1..]);
      assert t.chains[c] + rules == t.chains[c] + [rules[0]] + rules[1..];
      assert t1.chains[c := t1.chains[c] + rules[1..]] == t.chains[c := t.chains[c] + rules];
    }
  }

  lemma {:induction false} EnsuresBuild(t: Table, front: bool, quiet: bool, rules: seq<Rule>)
    requires INPUT in t.chains && forall r :: r in rules ==> !r.target.Jump?
    ensures RunAll(t, EnsureCmds(front, quiet, rules))
         == t.(chains := t.chains[INPUT := EnsuredAll(front, t.chains[INPUT], rules)])
    decreases |rules|
  {
    if rules == [] {
      assert t.chains[INPUT := t.chains[INPUT]] == t.chains;
    } else {
      var t1 := Effect(t, EnsureOp(front, rules[0]));
      assert rules[0] in rules;
      assert t1.chains == t.chains[INPUT := Ensured(front, t.chains[INPUT], rules[0])];
      EnsuresBuild(t1, front, quiet, rules[1..]);
      assert EnsureCmds(front, quiet, rules)[1..] == EnsureCmds(front, quiet, rules[1..]);
      assert t1.chains[INPUT := EnsuredAll(front, t1.chains[INPUT], rules[1..])]
          == t.chains[INPUT := EnsuredAll(front, t.chains[INPUT], rules)];
    }
  }

  /** `-N` and `-F` leave an empty chain, whether it was there or not. */
  lemma ChainStarts(t: Table, c: Chain)
    ensures RunAll(t, [Cmd(New(c), true), Cmd(Flush(c), true)]) == t.(chains := t.chains[c := []])
  {
    var start := [Cmd(New(c), true), Cmd(Flush(c), true)];
    var t1 := Effect(t, New(c));
    assert Effect(t1, Flush(c)).chains == t.chains[c := []];
    assert start[1..] == [Cmd(Flush(c), true)] && start[1..][1..] == [];
    assert RunAll(t, start) == RunAll(t1, start[1..]) == RunAll(Effect(t1, Flush(c)), []);
  }

  lemma ChainFilled(t: Table, c: Chain, body: seq<Rule>)
    requires OnlyDrops(body)
    ensures RunAll(t, [Cmd(New(c), true), Cmd(Flush(c), true)] + AppendCmds(c, body))
         == t.(chains := t.chains[c := body])
  {
    ChainStarts(t, c);
    var t2 := t.(chains := t.chains[c := []]);
    AppendsBuild(t2, c, body);
    RunConcat(t, [Cmd(New(c), true), Cmd(Flush(c), true)], AppendCmds(c, body));
    assert [] + body == body && t2.chains[c := body] == t.chains[c := body];
  }

  /** The command list of a plan has one effect, whatever the table looked like. */
  lemma ApplyInstalls(t: Table, p: Plan)
    requires WellFormed(t) && p.Valid()
    ensures Apply(t, p) == Installation(t, p) && WellFormed(Apply(t, p))
  {
    match p
    case DirectPlan(rules, front, quiet) =>
      EnsuresBuild(t, front, quiet, rules);
      EnsuredAllRules(front, t.chains[INPUT], rules);
    case ChainPlan(c, body, _) =>
      var jump := Cmd(EnsureInserted(INPUT, p.JumpRule()), false);
      var filled := t.(chains := t.chains[c := body]);
      ChainFilled(t, c, body);
      RunConcat(t, [Cmd(New(c), true), Cmd(Flush(c), true)] + AppendCmds(c, body), [jump]);
      assert [jump][1..] == [];
      assert RunAll(filled, [jump]) == Effect(filled, jump.op);
      assert Effect(filled, jump.op).chains
          == filled.chains[INPUT := Ensured(true, t.chains[INPUT], p.JumpRule())];
  }

  lemma {:induction false} EnsuredAllRules(front: bool, rules: seq<Rule>, rs: seq<Rule>)
    ensures forall r :: r in EnsuredAll(front, rules, rs) <==> r in rules || r in rs
    ensures forall r :: multiset(EnsuredAll(front, rules, rs))[r]
                     == if r in rs && r !in rules then 1 else multiset(rules)[r]
    decreases |rs|
  {
    if rs != [] {
      var next := Ensured(front, rules, rs[0]);
      EnsuredAllRules(front, next, rs[1..]);
      assert rs == [rs[0]] + rs[1..];
      assert forall r :: multiset(next)[r] == multiset(rules)[r] + if r == rs[0] && r !in rules then 1 else 0;
      assert forall r :: r in next <==> r in rules || r == rs[0];
      assert forall r :: r in rules ==> r in multiset(rules);
    }
  }

  // ---------- Idempotence ----------

  predicate Installed(t: Table, p: Plan) {
    INPUT in t.chains &&
    match p
    case ChainPlan(c, body, _) => c in t.chains && t.chains[c] == body && p.JumpRule() in t.chains[INPUT]
    case DirectPlan(rules, _, _) => forall r :: r in rules ==> r in t.chains[INPUT]
  }

  lemma {:induction false} EnsuredPresent(front: bool, rules: seq<Rule>, rs: seq<Rule>)
    requires forall r :: r in rs ==> r in rules
    ensures EnsuredAll(front, rules, rs) == rules
    decreases |rs|
  {
    if rs != [] {
      assert rs[0] in rs;
      EnsuredPresent(front, rules, rs[1..]);
    }
  }

  /** Installing again what is installed changes nothing at all. */
  lemma InstalledStays(t: Table, p: Plan)
    requires WellFormed(t) && p.Valid() && Installed(t, p)
    ensures Apply(t, p) == t
  {
    ApplyInstalls(t, p);
    match p
    case DirectPlan(rules, front, _) =>
      EnsuredPresent(front, t.chains[INPUT], rules);
      assert t.chains[INPUT := t.chains[INPUT]] == t.chains;
    case ChainPlan(c, body, _) =>
      assert t.chains[c := body][INPUT := t.chains[INPUT]] == t.chains;
  }

  ghost predicate Compatible(ps: seq<Plan>) {
    && (forall p :: p in ps ==> p.Valid())
    && (forall p, q :: p in ps && q in ps && p.ChainPlan? && q.ChainPlan? && p.chain == q.chain ==> p == q)
  }

  lemma InstallingKeepsInstalled(t: Table, p: Plan, q: Plan)
    requires WellFormed(t) && p.Valid() && q.Valid() && (Installed(t, q) || p == q)
    requires p.ChainPlan? && q.ChainPlan? && p.chain == q.chain ==> p == q
    ensures Installed(Apply(t, p), q)
  {
    ApplyInstalls(t, p);
    if p.DirectPlan? {
      EnsuredAllRules(p.front, t.chains[INPUT], p.rules);
    }
  }

  lemma AllInstalled(t: Table, ps: seq<Plan>, done: set<Plan>)
    requires WellFormed(t) && Compatible(ps)
    requires forall q :: q in done ==> q in ps && Installed(t, q)
    ensures WellFormed(ApplyAll(t, ps))
    ensures forall q :: q in ps ==> Installed(ApplyAll(t, ps), q)
  {
    AllInstalledFrom(t, ps, 0, done);
    assert ps[0..] == ps;
  }

  lemma {:induction false} AllInstalledFrom(t: Table, ps: seq<Plan>, k: nat, done: set<Plan>)
    requires WellFormed(t) && Compatible(ps) && k <= |ps|
    requires forall q :: q in done ==> q in ps && Installed(t, q)
    ensures WellFormed(ApplyAll(t, ps[k..]))
    ensures forall q :: q in done || q in ps[k..] ==> Installed(ApplyAll(t, ps[k..]), q)
    decreases |ps| - k
  {
    if k < |ps| {
      var p := ps[k];
      ApplyInstalls(t, p);
      forall q | q in done + {p} ensures Installed(Apply(t, p), q) {
        InstallingKeepsInstalled(t, p, q);
      }
      AllInstalledFrom(Apply(t, p), ps, k + 1, done + {p});
      assert ps[k..] == [p] + ps[k + 1..];
    }
  }

  lemma {:induction false} AllStay(t: Table, ps: seq<Plan>)
    requires WellFormed(t) && forall p :: p in ps ==> p.Valid() && Installed(t, p)
    ensures ApplyAll(t, ps) == t
    decreases |ps|
  {
    if ps != [] {
      assert ps[0] in ps;
      InstalledStays(t, ps[0]);
      AllStay(t, ps[1..]);
    }
  }

  /** Applying a list of protections twice is applying it once. */
  lemma ApplyingTwiceIsOnce(t: Table, ps: seq<Plan>)
    requires WellFormed(t) && Compatible(ps)
    ensures ApplyAll(ApplyAll(t, ps), ps) == ApplyAll(t, ps)
  {
    AllInstalled(t, ps, {});
    AllStay(ApplyAll(t, ps), ps);
  }

  /** A list of protections adds one copy of each of its INPUT rules that was missing,
      and changes the number of copies of no other rule. */
  lemma {:induction false} OneCopyOfEachRule(t: Table, ps: seq<Plan>, r: Rule)
    requires WellFormed(t) && forall p :: p in ps ==> p.Valid()
    ensures INPUT in ApplyAll(t, ps).chains
    ensures multiset(ApplyAll(t, ps).chains[INPUT])[r]
         == if r !in t.chains[INPUT] && exists p :: p in ps && Owns(p, r) then 1
            else multiset(t.chains[INPUT])[r]
    decreases |ps|
  {
    if ps != [] {
      var p, rest, before := ps[0], ps[1..], t.chains[INPUT];
      assert p in ps;
      ApplyInstalls(t, p);
      if p.DirectPlan? {
        EnsuredAllRules(p.front, before, p.rules);
      }
      var after := Apply(t, p).chains[INPUT];
      assert multiset(after)[r] == if r !in before && Owns(p, r) then 1 else multiset(before)[r];
      assert r in after <==> r in multiset(after);
      assert r in before <==> r in multiset(before);
      OneCopyOfEachRule(Apply(t, p), rest, r);
      assert ps == [p] + rest;
    }
  }

  // ---------- The table after a list of installations ----------

  lemma ApplyOne(t: Table, p: Plan)
    ensures ApplyAll(t, [p]) == Apply(t, p)
  {
    assert [p][1..] == [];
    assert ApplyAll(t, [p]) == ApplyAll(Apply(t, p), []);
  }

  /** INPUT after one installation. */
  function InputWith(rules: seq<Rule>, p: Plan): seq<Rule> {
    match p
    case ChainPlan(_, _, _) => Ensured(true, rules, p.JumpRule())
    case DirectPlan(rs, front, _) => EnsuredAll(front, rules, rs)
  }

  function InputAfter(rules: seq<Rule>, ps: seq<Plan>): seq<Rule>
    decreases |ps|
  {
    if ps == [] then rules else InputAfter(InputWith(rules, ps[0]), ps[1..])
  }

  ghost predicate HasChain(ps: seq<Plan>, c: Chain) {
    exists p :: p in ps && p.ChainPlan? && p.chain == c
  }

  /** t' is t with the chains of ps filled and the missing rules put into INPUT. */
  ghost predicate Outfitted(t: Table, t': Table, ps: seq<Plan>) {
    && t'.policy == t.policy
    && INPUT in t.chains && INPUT in t'.chains && t'.chains[INPUT] == InputAfter(t.chains[INPUT], ps)
    && t.chains.Keys <= t'.chains.Keys
    && (forall c :: c in t.chains && c != INPUT && !HasChain(ps, c) ==> t'.chains[c] == t.chains[c])
    && (forall c :: c in t'.chains && c !in t.chains ==> HasChain(ps, c))
    && (forall p :: p in ps && p.ChainPlan? ==> p.chain in t'.chains && t'.chains[p.chain] == p.body)
  }

  lemma {:induction false} ListOutfits(t: Table, ps: seq<Plan>)
    requires WellFormed(t) && Compatible(ps)
    ensures WellFormed(ApplyAll(t, ps)) && Outfitted(t, ApplyAll(t, ps), ps)
    decreases |ps|
  {
    if ps != [] {
      var p, rest := ps[0], ps[1..];
      assert p in ps && forall q :: q in rest ==> q in ps;
      ApplyInstalls(t, p);
      ListOutfits(Apply(t, p), rest);
      OutfittedFirst(t, ps, ApplyAll(t, ps));
    }
  }

  lemma OutfittedFirst(t: Table, ps: seq<Plan>, t': Table)
    requires ps != [] && Compatible(ps) && INPUT in t.chains
    requires Outfitted(Installation(t, ps[0]), t', ps[1..])
    ensures Outfitted(t, t', ps)
  {
    var p, rest := ps[0], ps[1..];
    assert p in ps && p.Valid() && ps == [p] + rest;
    forall c ensures HasChain(ps, c) <==> (p.ChainPlan? && p.chain == c) || HasChain(rest, c) {
    }
    if p.ChainPlan? {
      assert p.chain in t'.chains && t'.chains[p.chain] == p.body by {
        if HasChain(rest, p.chain) {
          var q :| q in rest && q.ChainPlan? && q.chain == p.chain;
          assert q in ps && p == q;
        }
      }
    }
  }

  /** The rules of INPUT after a list: those before it and those of its plans. */
  lemma {:induction false} InputAfterRules(rules: seq<Rule>, ps: seq<Plan>, r: Rule)
    ensures r in InputAfter(rules, ps) <==> r in rules || exists p :: p in ps && Owns(p, r)
    decreases |ps|
  {
    if ps != [] {
      var p := ps[0];
      if p.DirectPlan? { EnsuredAllRules(p.front, rules, p.rules); }
      assert r in InputWith(rules, p) <==> r in rules || Owns(p, r);
      InputAfterRules(InputWith(rules, p), ps[1..], r);
      assert ps == [p] + ps[1..];
    }
  }

  // ---------- Exact restoration ----------

  /** What is left after installing p on a clean table and removing it again. */
  function Leftover(t0: Table, p: Plan): Table
    requires INPUT in t0.chains
  {
    if p.DirectPlan? || p.cond == [] then t0
    else t0.(chains := t0.chains[p.chain := []][INPUT := [p.JumpRule()] + t0.chains[INPUT]])
  }

  /** Installing and removing gives the very same ruleset back exactly when the plan's
      jump, if it has one, carries no match; otherwise a jump to the emptied chain stays. */
  lemma RestoredExactlyUnlessConditionalJump(t0: Table, p: Plan)
    requires Clean({p}, t0)
    ensures Remove(Apply(t0, p), p) == Leftover(t0, p)
    ensures Remove(Apply(t0, p), p) == t0 <==> p.DirectPlan? || p.cond == []
  {
    assert p in {p};
    ApplyInstalls(t0, p);
    if p.DirectPlan? {
      DirectRoundTrip(t0, p);
    } else {
      assert OwnedChain({p}, p.chain);
      if p.cond == [] { PlainJumpRoundTrip(t0, p); } else { ConditionalJumpRoundTrip(t0, p); }
    }
  }

  /** Once no owned rule is left and no chain is owned, the overlay is the table itself. */
  lemma BareOverlay(S: set<Plan>, t0: Table, t: Table)
    requires Overlay(S, t0, t)
    requires forall c :: !OwnedChain(S, c)
    requires forall r :: r in t.chains[INPUT] ==> !Owned(S, r)
    ensures t == t0
  {
    StripKeeps(S, t.chains[INPUT]);
    assert t.chains == t0.chains;
  }

  lemma DirectRoundTrip(t0: Table, p: Plan)
    requires Clean({p}, t0) && p.DirectPlan?
    ensures Remove(Apply(t0, p), p) == t0
  {
    var S := {p};
    assert p in S;
    var t1 := Apply(t0, p);
    assert Overlay(S, t0, t1) by {
      CleanIsOverlay(S, t0);
      CommandsAllowed(S, p);
      RunAllKeepsOverlay(S, t0, t0, ApplyCmds(p));
    }
    RemovalMakesGone(S, t0, t1, p);
    BareOverlay(S, t0, Remove(t1, p));
  }

  lemma PlainJumpRoundTrip(t0: Table, p: Plan)
    requires WellFormed(t0) && p.ChainPlan? && p.Valid() && p.chain !in t0.chains && p.cond == []
    ensures Remove(Installation(t0, p), p) == t0
  {
    var c, r, input := p.chain, p.JumpRule(), t0.chains[INPUT];
    assert r !in input;
    var t1 := Installation(t0, p);
    RunThree(t1, RemoveCmds(p));
    var t2 := Effect(t1, Delete(INPUT, r));
    assert t2.chains == t0.chains[c := p.body] by {
      assert RemoveFirst([r] + input, r) == input;
    }
    var t3 := Effect(t2, Flush(c));
    assert t3.chains == t0.chains[c := []];
    forall d | d in t3.chains ensures !References(t3.chains[d], c) {
    }
    assert t3.chains - {c} == t0.chains;
  }

  lemma ConditionalJumpRoundTrip(t0: Table, p: Plan)
    requires WellFormed(t0) && p.ChainPlan? && p.Valid() && p.chain !in t0.chains && p.cond != []
    ensures Remove(Installation(t0, p), p) == Leftover(t0, p)
  {
    var c, r, plain, input := p.chain, p.JumpRule(), Rule([], Jump(p.chain)), t0.chains[INPUT];
    assert r !in input && plain !in input;
    var t1 := Installation(t0, p);
    RunThree(t1, RemoveCmds(p));
    assert Effect(t1, Delete(INPUT, plain)) == t1;
    var t3 := Effect(t1, Flush(c));
    assert t3.chains == Leftover(t0, p).chains;
    assert r in t3.chains[INPUT] && References(t3.chains[INPUT], c);
    assert Effect(t3, DeleteChain(c)) == t3;
  }
}
