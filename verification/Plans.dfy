/** How a protection is put on a host and taken off again: the two shapes of command
    list the firewall manager sends. */
module Plans {
  import opened Netfilter

  /** A `ChainPlan` fills a chain of its own and jumps to it from the head of INPUT;
      a `DirectPlan` puts its rules into INPUT itself, in front or behind. */
  datatype Plan =
    | ChainPlan(chain: Chain, body: seq<Rule>, cond: Match)
    | DirectPlan(rules: seq<Rule>, front: bool, quiet: bool)
  {
    function JumpRule(): Rule
      requires ChainPlan?
    {
      Rule(cond, Jump(chain))
    }

    ghost predicate Valid() {
      match this
      case ChainPlan(c, b, _) => c !in {INPUT, FORWARD, OUTPUT} && OnlyDrops(b)
      case DirectPlan(rs, _, _) => forall r :: r in rs ==> r.target in {Accept, Drop, Reject}
    }

    /** No rule of the plan accepts a packet. */
    ghost predicate Restrictive() {
      DirectPlan? ==> forall r :: r in rules ==> r.target in {Drop, Reject}
    }
  }

  ghost predicate OnlyDrops(rules: seq<Rule>) {
    forall r :: r in rules ==> r.target == Drop || r.target == Return
  }

  function AppendCmds(c: Chain, rules: seq<Rule>): seq<Cmd> {
    seq(|rules|, i requires 0 <= i < |rules| => Cmd(Append(c, rules[i]), false))
  }

  function EnsureOp(front: bool, r: Rule): Op {
    if front then EnsureInserted(INPUT, r) else EnsureAppended(INPUT, r)
  }

  function EnsureCmds(front: bool, quiet: bool, rules: seq<Rule>): seq<Cmd> {
    seq(|rules|, i requires 0 <= i < |rules| => Cmd(EnsureOp(front, rules[i]), quiet))
  }

  function DeleteCmds(rules: seq<Rule>): seq<Cmd> {
    seq(|rules|, i requires 0 <= i < |rules| => Cmd(Delete(INPUT, rules[i]), true))
  }

  function ApplyCmds(p: Plan): seq<Cmd> {
    match p
    case ChainPlan(c, body, _) =>
      [Cmd(New(c), true), Cmd(Flush(c), true)] + AppendCmds(c, body)
      + [Cmd(EnsureInserted(INPUT, p.JumpRule()), false)]
    case DirectPlan(rules, front, quiet) => EnsureCmds(front, quiet, rules)
  }

  /** The removal deletes the jump `-j CHAIN` without the match it was installed with. */
  function RemoveCmds(p: Plan): seq<Cmd> {
    match p
    case ChainPlan(c, _, _) =>
      [Cmd(Delete(INPUT, Rule([], Jump(c))), true), Cmd(Flush(c), true), Cmd(DeleteChain(c), true)]
    case DirectPlan(rules, _, _) => DeleteCmds(rules)
  }

  function Apply(t: Table, p: Plan): Table { RunAll(t, ApplyCmds(p)) }

  function Remove(t: Table, p: Plan): Table { RunAll(t, RemoveCmds(p)) }

  function ApplyAll(t: Table, ps: seq<Plan>): Table
    decreases |ps|
  {
    if ps == [] then t else ApplyAll(Apply(t, ps[0]), ps[1..])
  }

  function RemoveAll(t: Table, ps: seq<Plan>): Table
    decreases |ps|
  {
    if ps == [] then t else RemoveAll(Remove(t, ps[0]), ps[1..])
  }
}
