/** The firewall manager's protection calls on one Linux host. */
module L7Manager {
  import opened Netfilter
  import opened Plans
  import opened Protections
  import opened PlanRuns
  import opened PlanEffects
  import opened Tightening
  import opened Coverage
  import opened PartialRemoval
  import Text

  /** A requested protection name: one of the modelled ones, or one nobody knows. */
  datatype Request = Known(p: Protection) | Unknown(name: string)

  /** What the caller of the executor sees of one command. */
  datatype Reply = Reply(ok: bool, err: string)

  function ReplyTo(t: Table, cmd: Cmd, fate: Fate): Reply {
    match fate
    case Lost(e) => Reply(false, e)
    case Delivered(e) => if cmd.quiet || Succeeds(t, cmd.op) then Reply(true, "") else Reply(false, e)
  }

  /** The error a command list ends with: the last nonempty one wins, even when blank. */
  function LastError(t: Table, cmds: seq<Cmd>, fates: seq<Fate>, last: string): string
    requires |fates| == |cmds|
    decreases |cmds|
  {
    if cmds == [] then last
    else
      var r := ReplyTo(t, cmds[0], fates[0]);
      LastError(Perform(t, cmds[0], fates[0]), cmds[1..], fates[1..],
                if !r.ok && r.err != "" then Text.Strip(r.err) else last)
  }

  function RequestCmds(r: Request): seq<Cmd> {
    if r.Known? then ApplyCmds(PlanOf(r.p)) else []
  }

  ghost predicate AllDelivered(fates: seq<Fate>) {
    forall f :: f in fates ==> f.Delivered?
  }

  class Host {
    var table: Table

    constructor (t: Table)
      ensures table == t
    {
      table := t;
    }

    method RunCmds(cmds: seq<Cmd>, fates: seq<Fate>) returns (ok: bool)
      requires |fates| == |cmds|
      modifies this
      ensures table == Run(old(table), cmds, fates)
      ensures ok <==> LastError(old(table), cmds, fates, "") == ""
    {
      var lastErr := "";
      var i := 0;
      while i < |cmds|
        invariant 0 <= i <= |cmds|
        invariant Run(old(table), cmds, fates) == Run(table, cmds[i..], fates[i..])
        invariant LastError(old(table), cmds, fates, "") == LastError(table, cmds[i..], fates[i..], lastErr)
      {
        var reply := ReplyTo(table, cmds[i], fates[i]);
        assert cmds[i..][1..] == cmds[i + 1..] && fates[i..][1..] == fates[i + 1..];
        table := Perform(table, cmds[i], fates[i]);
        if !reply.ok && reply.err != "" {
          lastErr := Text.Strip(reply.err);
        }
        i := i + 1;
      }
      ok := lastErr == "";
    }

    method ApplyOne(r: Request, fates: seq<Fate>) returns (ok: bool)
      requires |fates| == |RequestCmds(r)|
      modifies this
      ensures table == Run(old(table), RequestCmds(r), fates)
      ensures ok == RequestOk(old(table), r, fates)
      ensures WellFormed(old(table)) && AllDelivered(fates) ==> WellFormed(table) && ok == r.Known?
    {
      if r.Unknown? {
        ok := false;
      } else {
        ok := RunCmds(ApplyCmds(PlanOf(r.p)), fates);
        if WellFormed(old(table)) && AllDelivered(fates) {
          DeliveredInstallationReportsSuccess(old(table), r.p, fates);
        }
      }
    }

    /** Applies the requests in order; a name nobody knows is reported and skipped.
        When no command is lost, every known protection is reported as applied. */
    method ApplyL7Protection(requests: seq<Request>, fates: seq<seq<Fate>>) returns (results: map<Request, bool>)
      requires Fits(requests, fates)
      modifies this
      ensures forall r :: r in results <==> r in requests
      ensures forall r :: r in requests && r.Unknown? ==> !results[r]
      ensures results == RequestResults(old(table), requests, fates, map[])
      ensures table == RunRequests(old(table), requests, fates)
      ensures WellFormed(old(table)) && AllReach(fates) ==> forall r :: r in requests ==> results[r] == r.Known?
    {
      results := map[];
      var i := 0;
      while i < |requests|
        invariant 0 <= i <= |requests|
        invariant Progress(old(table), requests, fates, table, i, results)
      {
        var r := requests[i];
        ProgressStep(old(table), requests, fates, table, i, results);
        var ok := ApplyOne(r, fates[i]);
        results := results[r := ok];
        i := i + 1;
      }
      ProgressEnds(old(table), requests, fates, table, results);
      ResultsKeys(old(table), requests, fates, map[]);
      if WellFormed(old(table)) && AllReach(fates) {
        SmoothResults(old(table), requests, fates, map[]);
      }
    }

    /** Reports success whenever its commands reach the host, whatever they found there. */
    method RemoveL7Protection(p: Protection, fates: seq<Fate>) returns (ok: bool)
      requires |fates| == |RemoveCmds(PlanOf(p))|
      modifies this
      ensures table == Run(old(table), RemoveCmds(PlanOf(p)), fates)
      ensures ok <==> LastError(old(table), RemoveCmds(PlanOf(p)), fates, "") == ""
      ensures AllDelivered(fates) ==> ok && table == Remove(old(table), PlanOf(p))
    {
      ok := RunCmds(RemoveCmds(PlanOf(p)), fates);
      if AllDelivered(fates) {
        RunDelivered(old(table), RemoveCmds(PlanOf(p)), fates);
        QuietCommandsReportNothing(old(table), RemoveCmds(PlanOf(p)), fates, "");
      }
    }
  }

  /** One list of fates for each request, one fate for each of its commands. */
  ghost predicate Fits(requests: seq<Request>, fates: seq<seq<Fate>>) {
    |fates| == |requests| &&
    forall i :: 0 <= i < |requests| ==> |fates[i]| == |RequestCmds(requests[i])|
  }

  /** The results of the requests, one by one. */
  ghost function RequestOks(t: Table, requests: seq<Request>, fates: seq<seq<Fate>>): (oks: seq<bool>)
    requires Fits(requests, fates)
    ensures |oks| == |requests|
    decreases |requests|
  {
    if requests == [] then []
    else [RequestOk(t, requests[0], fates[0])]
         + RequestOks(Run(t, RequestCmds(requests[0]), fates[0]), requests[1..], fates[1..])
  }

  lemma {:induction false} UnknownNeverOk(t: Table, requests: seq<Request>, fates: seq<seq<Fate>>)
    requires Fits(requests, fates)
    ensures var oks := RequestOks(t, requests, fates);
            forall i :: 0 <= i < |oks| && requests[i].Unknown? ==> !oks[i]
    decreases |requests|
  {
    if requests != [] {
      var t1, rest := Run(t, RequestCmds(requests[0]), fates[0]), requests[1..];
      var oks, more := RequestOks(t, requests, fates), RequestOks(t1, rest, fates[1..]);
      UnknownNeverOk(t1, rest, fates[1..]);
      assert oks == [RequestOk(t, requests[0], fates[0])] + more;
      assert forall i :: 0 < i < |oks| ==> oks[i] == more[i - 1] && requests[i] == rest[i - 1];
    }
  }

  function Enter(results: map<Request, bool>, requests: seq<Request>, oks: seq<bool>): map<Request, bool>
    requires |oks| == |requests|
    decreases |requests|
  {
    if requests == [] then results else Enter(results[requests[0] := oks[0]], requests[1..], oks[1..])
  }

  lemma {:induction false} ResultsAreEntered(t: Table, requests: seq<Request>, fates: seq<seq<Fate>>,
                                             results: map<Request, bool>)
    requires Fits(requests, fates)
    ensures RequestResults(t, requests, fates, results) == Enter(results, requests, RequestOks(t, requests, fates))
    decreases |requests|
  {
    if requests != [] {
      var ok := RequestOk(t, requests[0], fates[0]);
      var more := RequestOks(Run(t, RequestCmds(requests[0]), fates[0]), requests[1..], fates[1..]);
      ResultsAreEntered(Run(t, RequestCmds(requests[0]), fates[0]), requests[1..], fates[1..],
                        results[requests[0] := ok]);
      assert ([ok] + more)[1..] == more;
    }
  }

  lemma {:induction false} EnteredKeys(results: map<Request, bool>, requests: seq<Request>, oks: seq<bool>)
    requires |oks| == |requests| && forall i :: 0 <= i < |oks| && requests[i].Unknown? ==> !oks[i]
    ensures var out := Enter(results, requests, oks);
            && (forall r :: r in out <==> r in results || r in requests)
            && (forall r :: r in results && r !in requests ==> out[r] == results[r])
            && (forall r :: r in requests && r.Unknown? ==> !out[r])
    decreases |requests|
  {
    if requests != [] {
      var first, rest, next := requests[0], requests[1..], results[requests[0] := oks[0]];
      forall i | 0 <= i < |oks[1..]| && rest[i].Unknown? ensures !oks[1..][i] {
        assert rest[i] == requests[i + 1] && oks[1..][i] == oks[i + 1];
      }
      EnteredKeys(next, rest, oks[1..]);
      var out := Enter(next, rest, oks[1..]);
      assert Enter(results, requests, oks) == out;
      forall r ensures r in requests <==> r == first || r in rest {
        assert requests == [first] + rest;
      }
      assert first.Unknown? ==> !next[first];
      assert forall r :: r in next <==> r in results || r == first;
    }
  }

  /** There is one result for each request, and false for a name nobody knows. */
  lemma ResultsKeys(t: Table, requests: seq<Request>, fates: seq<seq<Fate>>, results: map<Request, bool>)
    requires Fits(requests, fates)
    ensures var out := RequestResults(t, requests, fates, results);
            && (forall r :: r in out <==> r in results || r in requests)
            && (forall r :: r in results && r !in requests ==> out[r] == results[r])
            && (forall r :: r in requests && r.Unknown? ==> !out[r])
  {
    ResultsAreEntered(t, requests, fates, results);
    UnknownNeverOk(t, requests, fates);
    EnteredKeys(results, requests, RequestOks(t, requests, fates));
  }

  ghost predicate AllReach(fates: seq<seq<Fate>>) { forall fs :: fs in fates ==> AllDelivered(fs) }

  lemma SmoothRequest(t: Table, r: Request, fates: seq<Fate>)
    requires WellFormed(t) && |fates| == |RequestCmds(r)| && AllDelivered(fates)
    ensures WellFormed(Run(t, RequestCmds(r), fates)) && RequestOk(t, r, fates) == r.Known?
  {
    if r.Known? { DeliveredInstallationReportsSuccess(t, r.p, fates); }
  }

  /** On a host that all commands reach, every known protection is reported as applied. */
  lemma {:induction false} SmoothResults(t: Table, requests: seq<Request>, fates: seq<seq<Fate>>,
                                         results: map<Request, bool>)
    requires Fits(requests, fates) && WellFormed(t) && AllReach(fates)
    ensures var out := RequestResults(t, requests, fates, results);
            forall r :: r in requests ==> r in out && out[r] == r.Known?
    decreases |requests|
  {
    if requests != [] {
      var r, rest := requests[0], requests[1..];
      var t1, next := Run(t, RequestCmds(r), fates[0]), results[r := RequestOk(t, r, fates[0])];
      assert requests == [r] + rest && fates[0] in fates;
      SmoothRequest(t, r, fates[0]);
      SmoothResults(t1, rest, fates[1..], next);
      ResultsKeys(t1, rest, fates[1..], next);
    }
  }

  lemma RequestsStep(t: Table, requests: seq<Request>, fates: seq<seq<Fate>>, i: nat)
    requires Fits(requests, fates) && i < |requests|
    ensures Fits(requests[i..], fates[i..]) && Fits(requests[i + 1..], fates[i + 1..])
    ensures |fates[i]| == |RequestCmds(requests[i])|
    ensures RunRequests(t, requests[i..], fates[i..])
         == RunRequests(Run(t, RequestCmds(requests[i]), fates[i]), requests[i + 1..], fates[i + 1..])
  {
    assert requests[i..][1..] == requests[i + 1..] && fates[i..][1..] == fates[i + 1..];
  }

  ghost function RunRequests(t: Table, requests: seq<Request>, fates: seq<seq<Fate>>): Table
    requires Fits(requests, fates)
    decreases |requests|
  {
    if requests == [] then t
    else RunRequests(Run(t, RequestCmds(requests[0]), fates[0]), requests[1..], fates[1..])
  }

  // ---------- Reported results ----------

  function RequestOk(t: Table, r: Request, fates: seq<Fate>): bool
    requires |fates| == |RequestCmds(r)|
  {
    r.Known? && LastError(t, RequestCmds(r), fates, "") == ""
  }

  /** The results of requests applied in order; of a name given twice the last one counts. */
  ghost function RequestResults(t: Table, requests: seq<Request>, fates: seq<seq<Fate>>,
                                results: map<Request, bool>): map<Request, bool>
    requires Fits(requests, fates)
    decreases |requests|
  {
    if requests == [] then results
    else RequestResults(Run(t, RequestCmds(requests[0]), fates[0]), requests[1..], fates[1..],
                        results[requests[0] := RequestOk(t, requests[0], fates[0])])
  }

  /** The requests from the i-th on, applied to t, lead to the outcome of all of them. */
  ghost predicate Progress(t0: Table, requests: seq<Request>, fates: seq<seq<Fate>>, t: Table, i: nat,
                           results: map<Request, bool>)
  {
    && i <= |requests| && Fits(requests, fates) && Fits(requests[i..], fates[i..])
    && RunRequests(t0, requests, fates) == RunRequests(t, requests[i..], fates[i..])
    && RequestResults(t0, requests, fates, map[]) == RequestResults(t, requests[i..], fates[i..], results)
  }

  lemma ProgressStep(t0: Table, requests: seq<Request>, fates: seq<seq<Fate>>, t: Table, i: nat,
                     results: map<Request, bool>)
    requires Progress(t0, requests, fates, t, i, results) && i < |requests|
    ensures |fates[i]| == |RequestCmds(requests[i])|
    ensures Progress(t0, requests, fates, Run(t, RequestCmds(requests[i]), fates[i]), i + 1,
                     results[requests[i] := RequestOk(t, requests[i], fates[i])])
  {
    RequestsStep(t, requests, fates, i);
    ResultsStep(t, requests, fates, i, results);
  }

  lemma ProgressEnds(t0: Table, requests: seq<Request>, fates: seq<seq<Fate>>, t: Table, results: map<Request, bool>)
    requires Progress(t0, requests, fates, t, |requests|, results)
    ensures t == RunRequests(t0, requests, fates) && results == RequestResults(t0, requests, fates, map[])
  {
  }

  lemma ResultsStep(t: Table, requests: seq<Request>, fates: seq<seq<Fate>>, i: nat, results: map<Request, bool>)
    requires Fits(requests, fates) && i < |requests|
    ensures Fits(requests[i..], fates[i..]) && Fits(requests[i + 1..], fates[i + 1..])
    ensures |fates[i]| == |RequestCmds(requests[i])|
    ensures RequestResults(t, requests[i..], fates[i..], results)
         == RequestResults(Run(t, RequestCmds(requests[i]), fates[i]), requests[i + 1..], fates[i + 1..],
                           results[requests[i] := RequestOk(t, requests[i], fates[i])])
  {
    assert requests[i..][1..] == requests[i + 1..] && fates[i..][1..] == fates[i + 1..];
  }

  /** What the executor answers to each command of a list. */
  function Replies(t: Table, cmds: seq<Cmd>, fates: seq<Fate>): (rs: seq<Reply>)
    requires |fates| == |cmds|
    ensures |rs| == |cmds|
    decreases |cmds|
  {
    if cmds == [] then []
    else [ReplyTo(t, cmds[0], fates[0])] + Replies(Perform(t, cmds[0], fates[0]), cmds[1..], fates[1..])
  }

  predicate Complains(r: Reply) { !r.ok && r.err != "" }

  /** The last reply that complains. */
  ghost predicate LastComplaint(rs: seq<Reply>, i: nat) {
    i < |rs| && Complains(rs[i]) && forall j :: i < j < |rs| ==> !Complains(rs[j])
  }

  /** Without a complaint a list of commands is reported as successful. */
  lemma {:induction false} NoComplaintNoError(t: Table, cmds: seq<Cmd>, fates: seq<Fate>, last: string)
    requires |fates| == |cmds|
    requires forall i :: 0 <= i < |cmds| ==> !Complains(Replies(t, cmds, fates)[i])
    ensures LastError(t, cmds, fates, last) == last
    decreases |cmds|
  {
    if cmds != [] {
      var t1, more := Perform(t, cmds[0], fates[0]), Replies(Perform(t, cmds[0], fates[0]), cmds[1..], fates[1..]);
      assert !Complains(Replies(t, cmds, fates)[0]);
      assert forall i :: 0 <= i < |more| ==> Replies(t, cmds, fates)[i + 1] == more[i];
      NoComplaintNoError(t1, cmds[1..], fates[1..], last);
    }
  }

  /** Otherwise the last complaint decides: the list fails exactly if it is not blank. */
  lemma {:induction false} LastComplaintDecides(t: Table, cmds: seq<Cmd>, fates: seq<Fate>, last: string, i: nat)
    requires |fates| == |cmds| && LastComplaint(Replies(t, cmds, fates), i)
    ensures LastError(t, cmds, fates, last) == Text.Strip(Replies(t, cmds, fates)[i].err)
    decreases |cmds|
  {
    var r, t1 := ReplyTo(t, cmds[0], fates[0]), Perform(t, cmds[0], fates[0]);
    var rs, more := Replies(t, cmds, fates), Replies(t1, cmds[1..], fates[1..]);
    assert rs == [r] + more && forall k :: 0 <= k < |more| ==> rs[k + 1] == more[k];
    var next := if Complains(r) then Text.Strip(r.err) else last;
    if i == 0 {
      NoComplaintNoError(t1, cmds[1..], fates[1..], next);
    } else {
      LastComplaintDecides(t1, cmds[1..], fates[1..], next, i - 1);
    }
  }

  lemma {:induction false} QuietCommandsReportNothing(t: Table, cmds: seq<Cmd>, fates: seq<Fate>, last: string)
    requires |fates| == |cmds|
    requires (forall c :: c in cmds ==> c.quiet) && AllDelivered(fates)
    ensures LastError(t, cmds, fates, last) == last
    decreases |cmds|
  {
    if cmds != [] {
      assert cmds[0] in cmds && fates[0] in fates;
      QuietCommandsReportNothing(Perform(t, cmds[0], fates[0]), cmds[1..], fates[1..], last);
    }
  }

  /** Every command succeeds at its turn or is quiet. */
  predicate Smooth(t: Table, cmds: seq<Cmd>)
    decreases |cmds|
  {
    cmds == [] || ((cmds[0].quiet || Succeeds(t, cmds[0].op)) && Smooth(Effect(t, cmds[0].op), cmds[1..]))
  }

  lemma {:induction false} SmoothReportsNothing(t: Table, cmds: seq<Cmd>, fates: seq<Fate>, last: string)
    requires |fates| == |cmds| && Smooth(t, cmds) && AllDelivered(fates)
    ensures LastError(t, cmds, fates, last) == last
    decreases |cmds|
  {
    if cmds != [] {
      assert fates[0] in fates;
      SmoothReportsNothing(Perform(t, cmds[0], fates[0]), cmds[1..], fates[1..], last);
    }
  }

  lemma {:induction false} SmoothConcat(t: Table, xs: seq<Cmd>, ys: seq<Cmd>)
    requires Smooth(t, xs) && Smooth(RunAll(t, xs), ys)
    ensures Smooth(t, xs + ys)
    decreases |xs|
  {
    if xs == [] {
      assert xs + ys == ys;
    } else {
      assert (xs + ys)[1..] == xs[1..] + ys;
      SmoothConcat(Effect(t, xs[0].op), xs[1..], ys);
    }
  }

  lemma {:induction false} AppendsSmooth(t: Table, c: Chain, rules: seq<Rule>)
    requires c in t.chains && OnlyDrops(rules)
    ensures Smooth(t, AppendCmds(c, rules))
    decreases |rules|
  {
    if rules != [] {
      assert rules[0] in rules;
      AppendsSmooth(Effect(t, Append(c, rules[0])), c, rules[1..]);
      assert AppendCmds(c, rules)[1..] == AppendCmds(c, rules[1..]);
    }
  }

  lemma {:induction false} EnsuresSmooth(t: Table, front: bool, quiet: bool, rules: seq<Rule>)
    requires INPUT in t.chains && forall r :: r in rules ==> !r.target.Jump?
    ensures Smooth(t, EnsureCmds(front, quiet, rules))
    decreases |rules|
  {
    if rules != [] {
      assert rules[0] in rules;
      EnsuresSmooth(Effect(t, EnsureOp(front, rules[0])), front, quiet, rules[1..]);
      assert EnsureCmds(front, quiet, rules)[1..] == EnsureCmds(front, quiet, rules[1..]);
    }
  }

  lemma InstallationSmooth(t: Table, p: Plan)
    requires WellFormed(t) && p.Valid()
    ensures Smooth(t, ApplyCmds(p))
  {
    match p
    case DirectPlan(rules, front, quiet) => EnsuresSmooth(t, front, quiet, rules);
    case ChainPlan(c, body, _) =>
      var start := [Cmd(New(c), true), Cmd(Flush(c), true)];
      var last := [Cmd(EnsureInserted(INPUT, p.JumpRule()), false)];
      assert start[1..] == [Cmd(Flush(c), true)] && start[1..][1..] == [] && last[1..] == [];
      var t1 := Effect(t, New(c));
      var t2 := Effect(t1, Flush(c));
      assert RunAll(t, start) == RunAll(t1, start[1..]) == RunAll(t2, []) == t2;
      assert Smooth(t2, []) && Smooth(t1, start[1..]);
      AppendsSmooth(t2, c, body);
      AppendsBuild(t2, c, body);
      SmoothConcat(t, start, AppendCmds(c, body));
      RunConcat(t, start, AppendCmds(c, body));
      var t3 := RunAll(t, start + AppendCmds(c, body));
      assert Smooth(Effect(t3, last[0].op), last[1..]);
      assert Smooth(t3, last);
      SmoothConcat(t, start + AppendCmds(c, body), last);
  }

  lemma DeliveredInstallationReportsSuccess(t: Table, p: Protection, fates: seq<Fate>)
    requires WellFormed(t) && |fates| == |ApplyCmds(PlanOf(p))| && AllDelivered(fates)
    ensures LastError(t, ApplyCmds(PlanOf(p)), fates, "") == ""
    ensures Run(t, ApplyCmds(PlanOf(p)), fates) == Apply(t, PlanOf(p))
    ensures WellFormed(Apply(t, PlanOf(p)))
  {
    PlansAreValid(p);
    InstallationSmooth(t, PlanOf(p));
    SmoothReportsNothing(t, ApplyCmds(PlanOf(p)), fates, "");
    RunDelivered(t, ApplyCmds(PlanOf(p)), fates);
    ApplyInstalls(t, PlanOf(p));
  }

  // ---------- The protections ----------

  ghost function PlanSet(S: set<Protection>): set<Plan> {
    set p | p in S :: PlanOf(p)
  }

  function PlanList(ps: seq<Protection>): seq<Plan> {
    seq(|ps|, i requires 0 <= i < |ps| => PlanOf(ps[i]))
  }

  lemma PlanListMembers(ps: seq<Protection>)
    ensures forall p :: p in ps ==> PlanOf(p) in PlanList(ps)
    ensures forall q :: q in PlanList(ps) ==> exists p :: p in ps && q == PlanOf(p)
  {
    forall p | p in ps ensures PlanOf(p) in PlanList(ps) {
      var i :| 0 <= i < |ps| && ps[i] == p;
      assert PlanList(ps)[i] == PlanOf(p);
    }
  }

  lemma PlanListCompatible(ps: seq<Protection>)
    ensures Compatible(PlanList(ps))
  {
    PlanListMembers(ps);
    forall q | q in PlanList(ps) ensures q.Valid() {
      var p :| p in ps && q == PlanOf(p);
      PlansAreValid(p);
    }
    forall q1, q2 | q1 in PlanList(ps) && q2 in PlanList(ps) && q1.ChainPlan? && q2.ChainPlan? && q1.chain == q2.chain
      ensures q1 == q2
    {
      var p1 :| p1 in ps && q1 == PlanOf(p1);
      var p2 :| p2 in ps && q2 == PlanOf(p2);
      ChainsAreDistinct(p1, p2);
    }
  }

  function KnownAll(ps: seq<Protection>): seq<Request> {
    seq(|ps|, i requires 0 <= i < |ps| => Known(ps[i]))
  }

  /** When nothing is lost, a list of requests applies its protections in order. */
  lemma {:induction false} RequestsApplyAll(t: Table, ps: seq<Protection>, fates: seq<seq<Fate>>)
    requires Fits(KnownAll(ps), fates) && forall fs :: fs in fates ==> AllDelivered(fs)
    ensures RunRequests(t, KnownAll(ps), fates) == ApplyAll(t, PlanList(ps))
    decreases |ps|
  {
    if ps != [] {
      assert KnownAll(ps)[1..] == KnownAll(ps[1..]) && PlanList(ps)[1..] == PlanList(ps[1..]);
      assert fates[0] in fates && KnownAll(ps)[0] == Known(ps[0]);
      RequestsStep(t, KnownAll(ps), fates, 0);
      RunDelivered(t, ApplyCmds(PlanOf(ps[0])), fates[0]);
      RequestsApplyAll(Apply(t, PlanOf(ps[0])), ps[1..], fates[1..]);
    }
  }

  /** Whatever was installed and removed meanwhile, with whatever commands lost: once all
      protections of S are removed, every packet at every hook gets its original verdict. */
  lemma RemovingProtectionsRestoresVerdicts(S: set<Protection>, t0: Table, actions: seq<Action>,
                                            order: seq<Protection>, hook: Chain, pkt: Packet)
    requires Clean(PlanSet(S), t0) && Acyclic(t0) && hook in t0.policy
    requires forall a :: a in actions ==> a.Valid() && a.p in PlanSet(S)
    requires forall p :: p in order <==> p in S
    ensures var t := RemoveAll(RunActions(t0, actions), PlanList(order));
            && t.policy == t0.policy && hook in t.chains && Acyclic(t)
            && VerdictOf(t, hook, pkt) == VerdictOf(t0, hook, pkt)
  {
    PlanListMembers(order);
    RemovalRestoresVerdicts(PlanSet(S), t0, actions, PlanList(order), hook, pkt);
  }

  /** The protection with rules in INPUT to which a rule's tests belong. */
  function TestOwner(m: Match): Protection {
    if m == [] then SynFlood
    else match m[|m| - 1]
      case ConnLimit(_) => Slowloris
      case ConnLimitMask(_, _) => ConnectionLimit
      case CtState(_) => BogusTcp
      case Fragment => FragmentProtection
      case IpOption(_) => IpOptions
      case Proto(_) => ProtocolFilter
      case HashLimit(_, _, _) => DnsAmplification
      case _ => IcmpFlood
  }

  /** The protection a rule of INPUT belongs to. */
  function OwnerOf(r: Rule): Protection {
    if r.target.Jump? then ChainOwner(r.target.chain) else TestOwner(r.cond)
  }

  function ChainOwner(c: Chain): Protection {
    match c
    case HTTP_FLOOD => HttpFlood
    case PORT_SCAN => PortScan
    case BOGON_FILTER => BogonFilter
    case UDP_FLOOD => UdpFlood
    case _ => SynFlood
  }

  lemma JumpOwner(p: Protection)
    requires PlanOf(p).ChainPlan?
    ensures ChainOwner(PlanOf(p).chain) == p
  {
  }

  lemma CondOwner(p: Protection, i: nat)
    requires p !in {SynFlood, HttpFlood, PortScan, BogonFilter, UdpFlood} && i < |Conds(p)|
    ensures TestOwner(Conds(p)[i]) == p
  {
  }

  lemma DirectOwner(p: Protection, r: Rule)
    requires PlanOf(p).DirectPlan? && r in PlanOf(p).rules
    ensures OwnerOf(r) == p
  {
    if r != EchoAccepted {
      assert r.cond in Conds(p) && !r.target.Jump?;
      var i: nat :| i < |Conds(p)| && Conds(p)[i] == r.cond;
      CondOwner(p, i);
    }
  }

  lemma OwnerIsUnique(p: Protection, r: Rule)
    requires Owns(PlanOf(p), r)
    ensures OwnerOf(r) == p
  {
    if PlanOf(p).ChainPlan? { JumpOwner(p); } else { DirectOwner(p, r); }
  }

  lemma ProtectionsApart(p: Protection, q: Protection)
    requires p != q
    ensures forall r :: Owns(PlanOf(p), r) ==> !Owns(PlanOf(q), r)
    ensures PlanOf(p).ChainPlan? && PlanOf(q).ChainPlan? ==> PlanOf(p).chain != PlanOf(q).chain
  {
    forall r | Owns(PlanOf(p), r) ensures !Owns(PlanOf(q), r) {
      OwnerIsUnique(p, r);
      if Owns(PlanOf(q), r) { OwnerIsUnique(q, r); }
    }
    if PlanOf(p).ChainPlan? && PlanOf(q).ChainPlan? && PlanOf(p).chain == PlanOf(q).chain {
      ChainsAreDistinct(p, q);
    }
  }

  lemma ProtectionsSeparate(ps: seq<Protection>, removed: seq<Protection>)
    requires forall p :: p in removed ==> p in ps
    ensures Separate(PlanList(ps), Members(PlanList(removed)))
  {
    var plans, B := PlanList(ps), Members(PlanList(removed));
    PlanListCompatible(ps);
    PlanListMembers(ps);
    PlanListMembers(removed);
    forall q | q in plans && q !in B ensures Foreign(B, q) {
      var p :| p in ps && q == PlanOf(p);
      forall b | b in B
        ensures forall r :: Owns(q, r) ==> !Owns(b, r)
        ensures b.ChainPlan? && q.ChainPlan? ==> b.chain != q.chain
      {
        var p' :| p' in removed && b == PlanOf(p');
        ProtectionsApart(p, p');
      }
    }
  }

  /** Applying a list of protections and removing some of them gives every packet at every
      hook the verdict of applying only the others. */
  lemma RemovingSomeProtections(t0: Table, ps: seq<Protection>, removed: seq<Protection>, hook: Chain, pkt: Packet)
    requires Clean(Members(PlanList(ps)), t0) && Acyclic(t0) && hook in t0.policy
    requires forall p :: p in removed ==> p in ps
    ensures var t := RemoveAll(ApplyAll(t0, PlanList(ps)), PlanList(removed));
            var u := ApplyAll(t0, Without(PlanList(ps), Members(PlanList(removed))));
            && hook in t.policy && hook in t.chains && hook in u.policy && hook in u.chains
            && Acyclic(t) && Acyclic(u) && VerdictOf(t, hook, pkt) == VerdictOf(u, hook, pkt)
  {
    ProtectionsSeparate(ps, removed);
    RemovingSomeLeavesTheOthers(t0, PlanList(ps), PlanList(removed), hook, pkt);
  }

  lemma PlanSetApart(S: set<Protection>, removed: seq<Protection>)
    requires forall p :: p in removed ==> p in S
    ensures Members(PlanList(removed)) <= PlanSet(S)
    ensures forall q :: q in PlanSet(S) && q !in Members(PlanList(removed)) ==>
              Foreign(Members(PlanList(removed)), q)
  {
    var B := Members(PlanList(removed));
    PlanListMembers(removed);
    forall q | q in PlanSet(S) && q !in B ensures Foreign(B, q) {
      var p :| p in S && q == PlanOf(p);
      forall b | b in B
        ensures forall r :: Owns(q, r) ==> !Owns(b, r)
        ensures b.ChainPlan? && q.ChainPlan? ==> b.chain != q.chain
      {
        var p' :| p' in removed && b == PlanOf(p');
        ProtectionsApart(p, p');
      }
    }
  }

  /** After any history of the protections of S, with any commands lost, removing some of them
      gives every packet the verdict of the same history without these. */
  lemma RemovingSomeUndoesThem(S: set<Protection>, removed: seq<Protection>, t0: Table, actions: seq<Action>,
                               hook: Chain, pkt: Packet)
    requires Clean(PlanSet(S), t0) && Acyclic(t0) && hook in t0.policy
    requires forall a :: a in actions ==> a.Valid() && a.p in PlanSet(S)
    requires forall p :: p in removed ==> p in S
    ensures var t := RemoveAll(RunActions(t0, actions), PlanList(removed));
            var u := RunActions(t0, Others(actions, Members(PlanList(removed))));
            && hook in t.policy && hook in t.chains && hook in u.policy && hook in u.chains
            && Acyclic(t) && Acyclic(u) && VerdictOf(t, hook, pkt) == VerdictOf(u, hook, pkt)
  {
    PlanSetApart(S, removed);
    RemovingSomeUndoesTheirHistory(PlanSet(S), Members(PlanList(removed)), t0, actions, PlanList(removed), hook, pkt);
  }

  lemma ApplyingProtectionsTwice(t: Table, ps: seq<Protection>)
    requires WellFormed(t)
    ensures ApplyAll(ApplyAll(t, PlanList(ps)), PlanList(ps)) == ApplyAll(t, PlanList(ps))
  {
    PlanListCompatible(ps);
    ApplyingTwiceIsOnce(t, PlanList(ps));
  }

  /** The present chains of a list of protections hold nothing their rules do not cover. */
  ghost predicate ProtectionsCovered(t: Table, ps: seq<Protection>)
    requires Acyclic(t)
  {
    forall p :: p in ps ==> PlanOf(p).Valid() && Covered(t, PlanOf(p))
  }

  lemma PlanListCovered(t: Table, ps: seq<Protection>)
    requires Acyclic(t)
    ensures Compatible(PlanList(ps)) && (AllCovered(t, PlanList(ps)) <==> ProtectionsCovered(t, ps))
    ensures IcmpFlood !in ps ==> forall q :: q in PlanList(ps) ==> q.Restrictive()
  {
    PlanListCompatible(ps);
    PlanListMembers(ps);
    forall q | q in PlanList(ps) ensures exists p :: p in ps && q == PlanOf(p) && q.Valid()
                                           && (p != IcmpFlood ==> q.Restrictive())
    {
      var p :| p in ps && q == PlanOf(p);
      PlansAreValid(p);
    }
  }

  /** Without the ICMP protection, a list of protections only tightens the firewall. */
  lemma ProtectionsOnlyTighten(t: Table, ps: seq<Protection>, hook: Chain, pkt: Packet)
    requires WellFormed(t) && Acyclic(t) && hook in t.policy && IcmpFlood !in ps
    requires ProtectionsCovered(t, ps)
    ensures var t' := ApplyAll(t, PlanList(ps));
            && WellFormed(t') && Acyclic(t') && t'.policy == t.policy
            && (VerdictOf(t, hook, pkt) != Accepted ==> VerdictOf(t', hook, pkt) != Accepted)
  {
    PlanListCovered(t, ps);
    ListTightens(t, PlanList(ps), hook, pkt);
  }

  /** The tests an echo request within the limit passes. */
  function Echo(): Packet { x => x in {Proto(Icmp), EchoRequest, Limit(5, 10)} }

  lemma EchoIgnored(p: Protection)
    ensures PlanOf(p).Valid()
    ensures if p == IcmpFlood then Admits(PlanOf(p), Echo()) else Ignores(PlanOf(p), Echo())
  {
    PlansAreValid(p);
    if p == IcmpFlood {
      assert PlanOf(p).rules[0] == EchoAccepted;
    } else {
      Unmatched(p, Echo());
      match PlanOf(p)
      case ChainPlan(_, body, _) =>
        assert forall r :: r in body && r.target.Drop? ==> Refuses(p, r);
        UnmatchedDropsPass(body, Echo());
      case DirectPlan(rules, _, _) => assert forall r :: r in rules ==> Refuses(p, r);
    }
  }

  /** A packet that passes no test of the refused kinds is not matched by a protection. */
  lemma Unmatched(p: Protection, pkt: Packet)
    requires p != IcmpFlood && forall x :: pkt(x) ==> x in {Proto(Icmp), EchoRequest, Limit(5, 10)}
    ensures forall r :: Refuses(p, r) ==> !Hits(r.cond, pkt)
  {
    forall r | Refuses(p, r) ensures !Hits(r.cond, pkt) {
      RefusedConds(p, r);
      FirstTests(p, r.cond);
      assert r.cond[0] in r.cond;
    }
  }

  /** A list of protections tightens every ruleset with the user chains of t, whatever its
      built-in chains and policies are, exactly if icmp_flood is not among them and their
      chains, where they exist, refuse nothing the protections' own rules let pass. */
  lemma ProtectionsTightenExactly(t: Table, ps: seq<Protection>)
    requires WellFormed(t) && Acyclic(t)
    ensures AlwaysTightens(t, PlanList(ps)) <==> IcmpFlood !in ps && ProtectionsCovered(t, ps)
  {
    PlanListCovered(t, ps);
    if IcmpFlood in ps {
      PlanListMembers(ps);
      forall q | q in PlanList(ps) ensures q.Valid() && (Ignores(q, Echo()) || Admits(q, Echo())) {
        var p :| p in ps && q == PlanOf(p);
        EchoIgnored(p);
      }
      EchoIgnored(IcmpFlood);
      AdmittingListLoosens(t, PlanList(ps), PlanOf(IcmpFlood), Echo());
    } else {
      TightensExactly(t, PlanList(ps));
    }
  }

  lemma OneChainIsFlushed(p: Protection)
    requires PlanOf(p).ChainPlan?
    ensures var t, t' := OwnChain(PlanOf(p).chain), Apply(OwnChain(PlanOf(p).chain), PlanOf(p));
            && WellFormed(t) && Acyclic(t) && WellFormed(t') && Acyclic(t')
            && VerdictOf(t, INPUT, Plain()) == Dropped && VerdictOf(t', INPUT, Plain()) == Accepted
  {
    var plan := PlanOf(p);
    PlansAreValid(p);
    Unmatched(p, Plain());
    assert forall r :: r in plan.body && r.target.Drop? ==> Refuses(p, r);
    OwnChainIsLost(plan);
  }

  /** Each of the five protections with a chain can loosen a firewall whose operator has a
      chain of that name already. */
  lemma OperatorsChainIsFlushed(p: Protection)
    requires PlanOf(p).ChainPlan?
    ensures var t, t' := OwnChain(PlanOf(p).chain), ApplyAll(OwnChain(PlanOf(p).chain), PlanList([p]));
            && WellFormed(t) && Acyclic(t) && WellFormed(t') && Acyclic(t')
            && VerdictOf(t, INPUT, Plain()) == Dropped && VerdictOf(t', INPUT, Plain()) == Accepted
  {
    assert PlanList([p]) == [PlanOf(p)];
    ApplyOne(OwnChain(PlanOf(p).chain), PlanOf(p));
    OneChainIsFlushed(p);
  }

  /** The ruleset itself comes back except for the three protections whose jump
      carries a match; those leave a jump to an empty chain. */
  lemma RulesetComesBackExceptForThree(t0: Table, p: Protection)
    requires Clean({PlanOf(p)}, t0)
    ensures Remove(Apply(t0, PlanOf(p)), PlanOf(p)) == Leftover(t0, PlanOf(p))
    ensures Remove(Apply(t0, PlanOf(p)), PlanOf(p)) == t0 <==> p !in {SynFlood, HttpFlood, UdpFlood}
  {
    RestoredExactlyUnlessConditionalJump(t0, PlanOf(p));
    assert PlanOf(p).DirectPlan? || PlanOf(p).cond == [] <==> p !in {SynFlood, HttpFlood, UdpFlood};
  }

  /** The ICMP protection lets a packet in exactly when it is an echo request within the
      limit that used to run off the end of INPUT into a refusing policy. */
  lemma IcmpProtectionExactly(t: Table, rank: Chain -> nat, hook: Chain, pkt: Packet)
    requires Clean({PlanOf(IcmpFlood)}, t) && Ranked(t, rank) && hook in t.policy
    ensures Acyclic(t) && WellFormed(Apply(t, PlanOf(IcmpFlood))) && Acyclic(Apply(t, PlanOf(IcmpFlood)))
    ensures VerdictOf(t, hook, pkt) != Accepted && VerdictOf(Apply(t, PlanOf(IcmpFlood)), hook, pkt) == Accepted
        <==> && hook == INPUT && t.policy[INPUT] != Accepted
             && pkt(Proto(Icmp)) && pkt(EchoRequest) && pkt(Limit(5, 10))
             && RunsOff(t, rank, pkt, t.chains[INPUT], rank(INPUT))
  {
    var p := PlanOf(IcmpFlood);
    assert p.rules[1] == Rule(Conds(IcmpFlood)[0], Drop);
    AcceptingPlanExactly(t, p, rank, hook, pkt);
    assert p.rules[0].cond == [Proto(Icmp), EchoRequest, Limit(5, 10)];
  }
}
