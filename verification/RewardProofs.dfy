/** The daily cap and the cooldowns over every run, and what a claim marks and submits. */
module RewardProofs {
  import opened Sequences
  import opened RewardLedger

  // ---------- Runs of the ledger ----------

  datatype Event = Awarding(call: AwardCall) | Marking(user: User, tx: string)

  function Apply(rs: seq<Record>, e: Event): seq<Record> {
    match e
    case Awarding(c) => Award(rs, c.user, c.request, c.clock)
    case Marking(u, tx) => Mark(rs, u, tx)
  }

  function Run(rs: seq<Record>, es: seq<Event>): seq<Record>
    decreases |es|
  {
    if es == [] then rs else Run(Apply(rs, es[0]), es[1..])
  }

  function Awardings(calls: seq<AwardCall>): seq<Event> {
    seq(|calls|, i requires 0 <= i < |calls| => Awarding(calls[i]))
  }

  function TurnEvents(u: User, t: Turn, hasWallet: bool): seq<Event> {
    if hasWallet && t.tx.Some? then Awardings(t.before) + Awardings(t.after) + [Marking(u, t.tx.value)]
    else Awardings(t.before)
  }

  function ProcessEvents(snapshot: seq<(User, nat)>, wallets: set<User>, turn: nat -> Turn, i: nat): seq<Event>
    decreases |snapshot|
  {
    if snapshot == [] then []
    else
      TurnEvents(snapshot[0].0, turn(i), snapshot[0].0 in wallets)
      + ProcessEvents(snapshot[1..], wallets, turn, i + 1)
  }

  lemma {:induction false} RunConcat(rs: seq<Record>, a: seq<Event>, b: seq<Event>)
    ensures Run(rs, a + b) == Run(Run(rs, a), b)
    decreases |a|
  {
    if a == [] {
      assert a + b == b;
    } else {
      assert (a + b)[1..] == a[1..] + b;
      RunConcat(Apply(rs, a[0]), a[1..], b);
    }
  }

  lemma {:induction false} AwardAllIsRun(rs: seq<Record>, calls: seq<AwardCall>)
    ensures AwardAll(rs, calls) == Run(rs, Awardings(calls))
    decreases |calls|
  {
    if calls != [] {
      assert Awardings(calls)[1..] == Awardings(calls[1..]);
      AwardAllIsRun(Apply(rs, Awarding(calls[0])), calls[1..]);
    }
  }

  /** Processing pending claims is a run of awards and markings. */
  lemma {:induction false} ProcessIsRun(p: Processed, snapshot: seq<(User, nat)>, wallets: set<User>,
                                        turn: nat -> Turn, i: nat)
    ensures Process(p, snapshot, wallets, turn, i).records == Run(p.records, ProcessEvents(snapshot, wallets, turn, i))
    decreases |snapshot|
  {
    if snapshot != [] {
      var (u, total) := snapshot[0];
      var t := turn(i);
      var now := TurnEvents(u, t, u in wallets);
      RunConcat(p.records, now, ProcessEvents(snapshot[1..], wallets, turn, i + 1));
      assert TurnRecords(p.records, u, t, u in wallets) == Run(p.records, now) by {
        TurnIsRun(p.records, u, t, u in wallets);
      }
      var sent := if u in wallets && t.tx.Some? then p.sent + [(u, total)] else p.sent;
      ProcessIsRun(Processed(TurnRecords(p.records, u, t, u in wallets), sent), snapshot[1..], wallets, turn, i + 1);
    }
  }

  lemma TurnIsRun(rs: seq<Record>, u: User, t: Turn, hasWallet: bool)
    ensures TurnRecords(rs, u, t, hasWallet) == Run(rs, TurnEvents(u, t, hasWallet))
  {
    AwardAllIsRun(rs, t.before);
    if hasWallet && t.tx.Some? {
      var rs1 := AwardAll(rs, t.before);
      AwardAllIsRun(rs1, t.after);
      RunConcat(rs, Awardings(t.before), Awardings(t.after));
      var mark := [Marking(u, t.tx.value)];
      RunConcat(rs, Awardings(t.before) + Awardings(t.after), mark);
      var rs2 := AwardAll(rs1, t.after);
      assert mark[1..] == [];
      assert Run(rs2, mark) == Run(Apply(rs2, mark[0]), []);
    }
  }

  // ---------- The cap and the cooldowns ----------

  /** Every award reads a clock that has not gone back since the record before. */
  ghost predicate Ordered(es: seq<Event>) {
    && (forall i :: 0 <= i < |es| && es[i].Awarding? ==> es[i].call.clock.Valid())
    && (forall i, j :: 0 <= i < j < |es| && es[i].Awarding? && es[j].Awarding? ==>
          es[i].call.clock.created <= es[j].call.clock.today)
  }

  ghost predicate Capped(rs: seq<Record>) {
    forall u: User, d: nat :: DailyTotal(rs, u, d) <= DAILY_EP_LIMIT
  }

  ghost predicate Apart(a: Record, b: Record) {
    a.user == b.user && a.action == b.action && Cooldown(a.action).Some? ==>
      b.createdAt - a.createdAt >= Cooldown(a.action).value
  }

  ghost predicate Spaced(rs: seq<Record>) {
    forall i, j :: 0 <= i < j < |rs| ==> Apart(rs[i], rs[j])
  }

  ghost predicate MadeBy(rs: seq<Record>, now: nat) {
    forall r :: r in rs ==> r.createdAt <= now && r.ep == Reward(r.action)
  }

  lemma DateMonotone(a: nat, b: nat)
    requires a <= b
    ensures Date(a) <= Date(b)
  {
  }

  /** Midnight between the check and the record does no harm: the new day is still empty. */
  lemma AwardKeepsCap(rs: seq<Record>, c: AwardCall)
    requires c.clock.Valid() && Capped(rs) && MadeBy(rs, c.clock.today)
    ensures Capped(Apply(rs, Awarding(c)))
  {
    if c.request.Known? && Allowed(rs, c.user, c.request.action, c.clock) {
      var r := Record(c.user, c.request.action, Reward(c.request.action), c.clock.created, Unclaimed);
      forall u: User, d: nat ensures DailyTotal(rs + [r], u, d) <= DAILY_EP_LIMIT {
        assert DailyTotal(rs, u, d) <= DAILY_EP_LIMIT;
        SumConcat(rs, [r], OfDate(u, d));
        SumOne(r, OfDate(u, d));
        DateMonotone(c.clock.today, c.clock.created);
        if d > Date(c.clock.today) {
          forall x | x in rs ensures !OfDate(u, d)(x) {
            DateMonotone(x.createdAt, c.clock.today);
          }
          SumNone(rs, OfDate(u, d));
        }
      }
    }
  }

  lemma AwardKeepsSpacing(rs: seq<Record>, c: AwardCall)
    requires c.clock.Valid() && Spaced(rs) && MadeBy(rs, c.clock.today)
    ensures Spaced(Apply(rs, Awarding(c))) && MadeBy(Apply(rs, Awarding(c)), c.clock.created)
  {
    if c.request.Known? && Allowed(rs, c.user, c.request.action, c.clock) {
      var last := LastAction(rs, c.user, c.request.action);
      var all := Apply(rs, Awarding(c));
      forall i, j | 0 <= i < j < |all| ensures Apart(all[i], all[j]) {
        if j < |rs| {
          assert Apart(rs[i], rs[j]);
        } else {
          assert rs[i] in rs;
        }
      }
    }
  }

  lemma {:induction false} MarkKeepsDays(rs: seq<Record>, u: User, tx: string, v: User, d: nat)
    ensures DailyTotal(Mark(rs, u, tx), v, d) == DailyTotal(rs, v, d)
  {
    if rs != [] {
      MarkKeepsDays(rs[1..], u, tx, v, d);
      assert Mark(rs, u, tx)[1..] == Mark(rs[1..], u, tx);
    }
  }

  lemma MarkKeepsLimits(rs: seq<Record>, u: User, tx: string, now: nat)
    requires Capped(rs) && Spaced(rs) && MadeBy(rs, now)
    ensures Capped(Mark(rs, u, tx)) && Spaced(Mark(rs, u, tx)) && MadeBy(Mark(rs, u, tx), now)
  {
    var out := Mark(rs, u, tx);
    forall v: User, d: nat ensures DailyTotal(out, v, d) <= DAILY_EP_LIMIT {
      MarkKeepsDays(rs, u, tx, v, d);
    }
    forall i, j | 0 <= i < j < |out| ensures Apart(out[i], out[j]) {
      assert Apart(rs[i], rs[j]);
    }
  }

  lemma {:induction false} RunKeepsLimits(rs: seq<Record>, es: seq<Event>, now: nat)
    requires Capped(rs) && Spaced(rs) && MadeBy(rs, now) && Ordered(es)
    requires forall i :: 0 <= i < |es| && es[i].Awarding? ==> now <= es[i].call.clock.today
    ensures Capped(Run(rs, es)) && Spaced(Run(rs, es))
    decreases |es|
  {
    if es != [] {
      var e, rest := es[0], es[1..];
      assert forall i :: 0 <= i < |rest| ==> rest[i] == es[i + 1];
      match e
      case Awarding(c) =>
        AwardKeepsCap(rs, c);
        AwardKeepsSpacing(rs, c);
        RunKeepsLimits(Apply(rs, e), rest, c.clock.created);
      case Marking(u, tx) =>
        MarkKeepsLimits(rs, u, tx, now);
        RunKeepsLimits(Apply(rs, e), rest, now);
    }
  }

  /** From an empty ledger, whatever is awarded and claimed: no user has more than 5000 EP
      on any UTC day, and two records of one user for the same action with a cooldown are
      at least the cooldown apart. */
  lemma LimitsAlwaysHold(es: seq<Event>)
    requires Ordered(es)
    ensures Capped(Run([], es)) && Spaced(Run([], es))
  {
    RunKeepsLimits([], es, 0);
  }

  // ---------- What a cooldown allows in a stretch of time ----------

  function PaidIn(u: User, a: Action, lo: int, hi: int): Record -> bool {
    (r: Record) => Matches(r, u, a) && lo <= r.createdAt <= hi
  }

  lemma {:induction false} SumBelow(rs: seq<Record>, f: Record -> bool, g: Record -> bool)
    requires forall r :: r in rs && f(r) ==> g(r)
    ensures Sum(rs, f) <= Sum(rs, g)
  {
    if rs != [] {
      assert rs[0] in rs && forall r :: r in rs[1..] ==> r in rs;
      SumBelow(rs[1..], f, g);
    }
  }

  /** Payments in front of a payment lie a cooldown before it. */
  lemma EarlierPayments(front: seq<Record>, last: Record, u: User, a: Action, c: int, lo: int, hi: int)
    requires Spaced(front + [last]) && Cooldown(a) == Some(c) && Matches(last, u, a)
    ensures Sum(front, PaidIn(u, a, lo, hi)) <= Sum(front, PaidIn(u, a, lo, last.createdAt - c))
  {
    var rs := front + [last];
    forall r | r in front && PaidIn(u, a, lo, hi)(r) ensures PaidIn(u, a, lo, last.createdAt - c)(r) {
      var i :| 0 <= i < |front| && front[i] == r;
      assert rs[i] == r && Apart(rs[i], rs[|front|]);
    }
    SumBelow(front, PaidIn(u, a, lo, hi), PaidIn(u, a, lo, last.createdAt - c));
  }

  lemma OneMore(w: nat, c: int, k: nat)
    ensures (k + 1) * c == k * c + c && w * (k + 1) == w * k + w
  {
  }

  /** A stretch shorter than k + 1 cooldowns has room for k + 1 payments. */
  lemma {:induction false} PaymentsInStretch(rs: seq<Record>, u: User, a: Action, w: nat, c: int,
                                             lo: int, hi: int, k: nat)
    requires Spaced(rs) && Cooldown(a) == Some(c) && forall r :: r in rs && r.action == a ==> r.ep == w
    requires hi - lo < (k + 1) * c
    ensures Sum(rs, PaidIn(u, a, lo, hi)) <= w * (k + 1)
    decreases |rs|
  {
    if rs != [] {
      var n := |rs| - 1;
      var front, last, paid := rs[..n], rs[n], PaidIn(u, a, lo, hi);
      assert rs == front + [last] && last in rs && forall r :: r in front ==> r in rs;
      SumConcat(front, [last], paid);
      SumOne(last, paid);
      if paid(last) {
        var before := last.createdAt - c;
        EarlierPayments(front, last, u, a, c, lo, hi);
        OneMore(w, c, k);
        if k == 0 {
          SumNone(front, PaidIn(u, a, lo, before));
        } else {
          PaymentsInStretch(front, u, a, w, c, lo, before, k - 1);
        }
      } else {
        PaymentsInStretch(front, u, a, w, c, lo, hi, k);
      }
    }
  }

  /** An action with a cooldown of c pays at most its reward times (T / c + 1) to a user
      over any closed stretch of length T. */
  lemma CooldownBoundsPayout(es: seq<Event>, u: User, a: Action, c: int, lo: int, hi: int)
    requires Ordered(es) && Cooldown(a) == Some(c) && lo <= hi
    ensures Sum(Run([], es), PaidIn(u, a, lo, hi)) <= Reward(a) * ((hi - lo) / c + 1)
  {
    LimitsAlwaysHold(es);
    RunRewards([], es);
    var k := (hi - lo) / c;
    assert hi - lo == k * c + (hi - lo) % c;
    PaymentsInStretch(Run([], es), u, a, Reward(a), c, lo, hi, k);
  }

  lemma {:induction false} RunRewards(rs: seq<Record>, es: seq<Event>)
    requires forall r :: r in rs ==> r.ep == Reward(r.action)
    ensures forall r :: r in Run(rs, es) ==> r.ep == Reward(r.action)
    decreases |es|
  {
    if es != [] {
      forall r | r in Apply(rs, es[0]) ensures r.ep == Reward(r.action) {
        var i :| 0 <= i < |Apply(rs, es[0])| && Apply(rs, es[0])[i] == r;
        assert i < |rs| ==> rs[i] in rs;
      }
      RunRewards(Apply(rs, es[0]), es[1..]);
    }
  }

  // ---------- Claims ----------

  /** What was submitted on chain for a user, in all. */
  function SentTo(sent: seq<(User, nat)>, u: User): nat {
    if sent == [] then 0 else (if sent[0].0 == u then sent[0].1 else 0) + SentTo(sent[1..], u)
  }

  lemma {:induction false} SentAppended(sent: seq<(User, nat)>, u: User, n: nat, v: User)
    ensures SentTo(sent + [(u, n)], v) == SentTo(sent, v) + if v == u then n else 0
  {
    if sent == [] {
      assert [] + [(u, n)] == [(u, n)] && [(u, n)][1..] == [];
    } else {
      assert (sent + [(u, n)])[1..] == sent[1..] + [(u, n)];
      SentAppended(sent[1..], u, n, v);
    }
  }

  /** An award adds to the user's total and unclaimed points alike, or changes nothing. */
  lemma AwardAdds(rs: seq<Record>, c: AwardCall, v: User)
    ensures var out := Award(rs, c.user, c.request, c.clock);
            && ClaimedEp(out, v) == ClaimedEp(rs, v)
            && UnclaimedEp(out, v) - UnclaimedEp(rs, v) == TotalEp(out, v) - TotalEp(rs, v) >= 0
            && (TotalEp(out, v) == TotalEp(rs, v) <==> out == rs || c.user != v)
  {
    var out := Award(rs, c.user, c.request, c.clock);
    if out != rs {
      var r := out[|rs|];
      SumConcat(rs, [r], ClaimedOf(v));
      SumConcat(rs, [r], UnclaimedOf(v));
      SumConcat(rs, [r], OfUser(v));
      SumOne(r, ClaimedOf(v));
      SumOne(r, UnclaimedOf(v));
      SumOne(r, OfUser(v));
    }
  }

  lemma {:induction false} AwardsAdd(rs: seq<Record>, calls: seq<AwardCall>, v: User)
    ensures var out := AwardAll(rs, calls);
            && ClaimedEp(out, v) == ClaimedEp(rs, v)
            && UnclaimedEp(out, v) - UnclaimedEp(rs, v) == TotalEp(out, v) - TotalEp(rs, v) >= 0
    decreases |calls|
  {
    if calls != [] {
      AwardAdds(rs, calls[0], v);
      AwardsAdd(Award(rs, calls[0].user, calls[0].request, calls[0].clock), calls[1..], v);
    }
  }

  /** Points of u awarded between two states of the ledger. */
  function Late(from: seq<Record>, to: seq<Record>, u: User): int { TotalEp(to, u) - TotalEp(from, u) }

  /** A snapshot entry still stands: what is unclaimed now is what was unclaimed then, and
      what was awarded since. */
  ghost predicate Stands(base: seq<Record>, rs: seq<Record>, entry: (User, nat)) {
    UnclaimedEp(rs, entry.0) == entry.1 + Late(base, rs, entry.0)
  }

  /** The claim of one user: awards at any point between snapshot, submission and marking
      are marked with it. What is marked exceeds what was submitted by exactly the points
      awarded since the snapshot. */
  lemma ClaimMarksSubmittedAndLate(base: seq<Record>, rs: seq<Record>, entry: (User, nat), t: Turn)
    requires Stands(base, rs, entry) && t.tx.Some? && Late(base, rs, entry.0) >= 0
    ensures var out := TurnRecords(rs, entry.0, t, true);
            var marked := ClaimedEp(out, entry.0) - ClaimedEp(rs, entry.0);
            && marked == entry.1 + Late(base, out, entry.0)
            && entry.1 <= marked
            && (marked == entry.1 <==> TotalEp(out, entry.0) == TotalEp(base, entry.0))
            && UnclaimedEp(out, entry.0) == 0
  {
    var u := entry.0;
    var rs1 := AwardAll(rs, t.before);
    var rs2 := AwardAll(rs1, t.after);
    AwardsAdd(rs, t.before, u);
    AwardsAdd(rs1, t.after, u);
    MarkMoves(rs2, u, t.tx.value, u);
    ClaimedPlusUnclaimed(rs2, u);
  }

  /** A turn keeps the other snapshot entries standing and never claims without marking. */
  lemma TurnKeepsOthers(base: seq<Record>, rs: seq<Record>, u: User, t: Turn, hasWallet: bool, v: User)
    ensures var out := TurnRecords(rs, u, t, hasWallet);
            && TotalEp(out, v) >= TotalEp(rs, v)
            && (v != u || !hasWallet || t.tx.None? ==>
                  && ClaimedEp(out, v) == ClaimedEp(rs, v)
                  && UnclaimedEp(out, v) - UnclaimedEp(rs, v) == TotalEp(out, v) - TotalEp(rs, v))
  {
    var rs1 := AwardAll(rs, t.before);
    AwardsAdd(rs, t.before, v);
    if hasWallet && t.tx.Some? {
      AwardsAdd(rs1, t.after, v);
      MarkMoves(AwardAll(rs1, t.after), u, t.tx.value, v);
    }
  }

  ghost predicate AllStand(base: seq<Record>, rs: seq<Record>, snapshot: seq<(User, nat)>) {
    && (forall i :: 0 <= i < |snapshot| ==> Stands(base, rs, snapshot[i]))
    && (forall i, j :: 0 <= i < j < |snapshot| ==> snapshot[i].0 != snapshot[j].0)
    && (forall v :: Late(base, rs, v) >= 0)
  }

  lemma SnapshotStands(rs: seq<Record>)
    ensures AllStand(rs, rs, Snapshot(rs))
  {
  }

  lemma {:induction false} ProcessNeverOverpays(base: seq<Record>, p: Processed, snapshot: seq<(User, nat)>,
                                                wallets: set<User>, turn: nat -> Turn, i: nat, v: User)
    requires AllStand(base, p.records, snapshot)
    ensures var q := Process(p, snapshot, wallets, turn, i);
            && SentTo(q.sent, v) - SentTo(p.sent, v) <= ClaimedEp(q.records, v) - ClaimedEp(p.records, v)
            && (TotalEp(q.records, v) == TotalEp(base, v) ==>
                  SentTo(q.sent, v) - SentTo(p.sent, v) == ClaimedEp(q.records, v) - ClaimedEp(p.records, v))
            && TotalEp(q.records, v) >= TotalEp(p.records, v)
    decreases |snapshot|
  {
    if snapshot != [] {
      var (u, n) := snapshot[0];
      var t, mine := turn(i), u in wallets && turn(i).tx.Some?;
      var out := TurnRecords(p.records, u, t, u in wallets);
      var sent := if mine then p.sent + [(u, n)] else p.sent;
      NextStand(base, p.records, snapshot, t, u in wallets);
      TurnKeepsOthers(base, p.records, u, t, u in wallets, v);
      if mine {
        SentAppended(p.sent, u, n, v);
        assert Stands(base, p.records, snapshot[0]);
        ClaimMarksSubmittedAndLate(base, p.records, snapshot[0], t);
      }
      ProcessNeverOverpays(base, Processed(out, sent), snapshot[1..], wallets, turn, i + 1, v);
    }
  }

  lemma NextStand(base: seq<Record>, rs: seq<Record>, snapshot: seq<(User, nat)>, t: Turn, hasWallet: bool)
    requires snapshot != [] && AllStand(base, rs, snapshot)
    ensures AllStand(base, TurnRecords(rs, snapshot[0].0, t, hasWallet), snapshot[1..])
  {
    var out, rest := TurnRecords(rs, snapshot[0].0, t, hasWallet), snapshot[1..];
    forall k | 0 <= k < |rest| ensures Stands(base, out, rest[k]) {
      assert rest[k] == snapshot[k + 1] && Stands(base, rs, snapshot[k + 1]);
      TurnKeepsOthers(base, rs, snapshot[0].0, t, hasWallet, rest[k].0);
    }
    forall v ensures Late(base, out, v) >= 0 {
      assert Late(base, rs, v) >= 0;
      TurnKeepsOthers(base, rs, snapshot[0].0, t, hasWallet, v);
    }
  }

  /** The life of the ledger: awards, and rounds of claims with awards in between. */
  datatype Round = Awards(calls: seq<AwardCall>) | Claims(wallets: set<User>, turn: nat -> Turn)

  function Live(p: Processed, rounds: seq<Round>): Processed
    decreases |rounds|
  {
    if rounds == [] then p
    else
      match rounds[0]
      case Awards(calls) => Live(Processed(AwardAll(p.records, calls), p.sent), rounds[1..])
      case Claims(wallets, turn) => Live(Process(p, Snapshot(p.records), wallets, turn, 0), rounds[1..])
  }

  lemma {:induction false} LiveNeverOverpays(p: Processed, rounds: seq<Round>, v: User)
    ensures var q := Live(p, rounds);
            SentTo(q.sent, v) - SentTo(p.sent, v) <= ClaimedEp(q.records, v) - ClaimedEp(p.records, v)
    decreases |rounds|
  {
    if rounds != [] {
      match rounds[0]
      case Awards(calls) =>
        AwardsAdd(p.records, calls, v);
        LiveNeverOverpays(Processed(AwardAll(p.records, calls), p.sent), rounds[1..], v);
      case Claims(wallets, turn) =>
        SnapshotStands(p.records);
        ProcessNeverOverpays(p.records, p, Snapshot(p.records), wallets, turn, 0, v);
        LiveNeverOverpays(Process(p, Snapshot(p.records), wallets, turn, 0), rounds[1..], v);
    }
  }

  /** Over every life of the ledger, no user is sent more on chain than is marked claimed,
      and what is marked claimed was earned. */
  lemma SentAtMostClaimedAtMostEarned(rounds: seq<Round>, v: User)
    ensures var q := Live(Processed([], []), rounds);
            SentTo(q.sent, v) <= ClaimedEp(q.records, v) <= TotalEp(q.records, v)
  {
    LiveNeverOverpays(Processed([], []), rounds, v);
    ClaimedPlusUnclaimed(Live(Processed([], []), rounds).records, v);
  }

  // ---------- No record is claimed twice ----------

  lemma {:induction false} ClaimedStaysClaimed(rs: seq<Record>, es: seq<Event>, i: nat)
    requires i < |rs| && rs[i].claim.Claimed?
    ensures var out := Run(rs, es); |rs| <= |out| && out[i] == rs[i]
    decreases |es|
  {
    if es != [] {
      ClaimedStaysClaimed(Apply(rs, es[0]), es[1..], i);
    }
  }

  // ---------- When an award is granted ----------

  /** The points of an action, its cooldown in seconds (0 for none), and its claim type. */
  datatype Terms = Terms(ep: nat, cooldown: nat, claimType: ClaimType)

  function TermsOf(a: Action): Terms {
    match a
    case SubscriptionPayment => Terms(100, 0, Cashback)
    case MarketplacePurchase => Terms(50, 0, Cashback)
    case ResourceUpgrade => Terms(75, 0, Cashback)
    case ServerAdded => Terms(20, 300, Work)
    case TemplateShared => Terms(200, 3600, Work)
    case BugReport => Terms(50, 0, Work)
    case Uptime99Monthly => Terms(150, 0, Work)
    case MonitoringAlertSetup => Terms(10, 0, Work)
    case BackupConfigured => Terms(15, 0, Work)
    case AiAppInstalled => Terms(30, 120, AiWork)
    case StackBuilderUsed => Terms(50, 300, AiWork)
    case AiStackCompleted => Terms(100, 0, AiWork)
    case AiAssistantUsed => Terms(5, 30, AiWork)
    case AppPublishedMarket => Terms(300, 0, AiWork)
    case AiModelDeployed => Terms(75, 0, AiWork)
    case ReferralSignup => Terms(500, 0, Work)
    case ReferralPaid => Terms(1000, 0, Work)
    case ProductListed => Terms(30, 600, Marketplace)
    case ProductSale => Terms(100, 0, Marketplace)
    case FiveStarReview => Terms(25, 0, Marketplace)
  }

  lemma TablesAgree(a: Action)
    ensures TermsOf(a).ep == Reward(a) && TermsOf(a).claimType == ClaimTypeOf(a)
    ensures Cooldown(a) == if TermsOf(a).cooldown == 0 then None else Some(TermsOf(a).cooldown * 1000000)
  {
  }

  /** The user's points of a UTC day, a day having 86,400,000,000 microseconds. */
  function EarnedOn(rs: seq<Record>, u: User, day: nat): nat {
    if rs == [] then 0
    else
      var r := rs[|rs| - 1];
      EarnedOn(rs[..|rs| - 1], u, day) + if r.user == u && r.createdAt / 86400000000 == day then r.ep else 0
  }

  function EarnedEver(rs: seq<Record>, u: User): nat {
    if rs == [] then 0
    else EarnedEver(rs[..|rs| - 1], u) + if rs[|rs| - 1].user == u then rs[|rs| - 1].ep else 0
  }

  /** Every record of the user for the action is at least the cooldown old. */
  predicate Rested(rs: seq<Record>, u: User, a: Action, now: nat) {
    forall r :: r in rs && r.user == u && r.action == a ==> now - r.createdAt >= TermsOf(a).cooldown * 1000000
  }

  lemma {:induction false} DaySums(rs: seq<Record>, u: User, day: nat)
    ensures EarnedOn(rs, u, day) == DailyTotal(rs, u, day)
  {
    if rs != [] {
      var front, last := rs[..|rs| - 1], rs[|rs| - 1];
      assert rs == front + [last];
      DaySums(front, u, day);
      SumConcat(front, [last], OfDate(u, day));
      SumOne(last, OfDate(u, day));
    }
  }

  lemma {:induction false} EverSums(rs: seq<Record>, u: User)
    ensures EarnedEver(rs, u) == TotalEp(rs, u)
  {
    if rs != [] {
      var front, last := rs[..|rs| - 1], rs[|rs| - 1];
      assert rs == front + [last];
      EverSums(front, u);
      SumConcat(front, [last], OfUser(u));
      SumOne(last, OfUser(u));
    }
  }

  lemma RestedExactly(rs: seq<Record>, u: User, a: Action, now: nat)
    requires Cooldown(a).Some?
    ensures Rested(rs, u, a, now) <==>
              (LastAction(rs, u, a).Some? ==> now - LastAction(rs, u, a).value >= Cooldown(a).value)
  {
    TablesAgree(a);
    var last := LastAction(rs, u, a);
    if last.None? {
      assert forall r :: r in rs ==> !Matches(r, u, a);
    } else {
      var r :| r in rs && Matches(r, u, a) && r.createdAt == last.value;
      assert forall x :: x in rs && x.user == u && x.action == a ==> Matches(x, u, a);
    }
  }

  /** An award is granted, and a record added, exactly if the action is known, the points of
      the day and the new ones are at most 5000, and the cooldown, if there is one, is over. */
  lemma AwardedExactly(rs: seq<Record>, u: User, q: Request, c: Clock)
    ensures Award(rs, u, q, c)
         == if q.Known? && EarnedOn(rs, u, c.today / 86400000000) + TermsOf(q.action).ep <= 5000
               && (TermsOf(q.action).cooldown > 0 ==> Rested(rs, u, q.action, c.check))
            then rs + [Record(u, q.action, TermsOf(q.action).ep, c.created, Unclaimed)]
            else rs
  {
    if q.Known? {
      TablesAgree(q.action);
      DaySums(rs, u, c.today / 86400000000);
      if Cooldown(q.action).Some? { RestedExactly(rs, u, q.action, c.check); }
    }
  }

  /** What is reported of an award. */
  lemma ReportedExactly(rs: seq<Record>, u: User, a: Action)
    ensures AwardReport(rs, u, a) == Awarded(TermsOf(a).ep, EarnedEver(rs, u), a, TermsOf(a).claimType)
  {
    TablesAgree(a);
    EverSums(rs, u);
  }

  // ---------- Who is claimed for ----------

  /** A user of the snapshot is claimed for exactly with a wallet and a transaction; then the
      points of the snapshot are sent, and every record the user had is marked with it. */
  lemma TurnOutcome(rs: seq<Record>, u: User, t: Turn, hasWallet: bool, k: nat)
    requires k < |rs|
    ensures var out := TurnRecords(rs, u, t, hasWallet);
            && k < |out|
            && out[k] == if hasWallet && t.tx.Some? && rs[k].user == u && rs[k].claim.Unclaimed?
                         then Record(rs[k].user, rs[k].action, rs[k].ep, rs[k].createdAt, Claimed(t.tx.value))
                         else rs[k]
  {
    var rs1 := AwardAll(rs, t.before);
    AwardsAppend(rs, t.before);
    if hasWallet && t.tx.Some? {
      AwardsAppend(rs1, t.after);
    }
  }

  lemma {:induction false} AwardsAppend(rs: seq<Record>, calls: seq<AwardCall>)
    ensures rs <= AwardAll(rs, calls)
    decreases |calls|
  {
    if calls != [] {
      AwardsAppend(Award(rs, calls[0].user, calls[0].request, calls[0].clock), calls[1..]);
    }
  }

  predicate ClaimedFor(u: User, wallets: set<User>, t: Turn) { u in wallets && t.tx.Some? }

  /** What a round makes of one record: each turn may mark it. */
  function MarkedBy(r: Record, snapshot: seq<(User, nat)>, wallets: set<User>, turn: nat -> Turn, i: nat): Record
    decreases |snapshot|
  {
    if snapshot == [] then r
    else
      var u := snapshot[0].0;
      var r1 := if ClaimedFor(u, wallets, turn(i)) then MarkOne(r, u, turn(i).tx.value) else r;
      MarkedBy(r1, snapshot[1..], wallets, turn, i + 1)
  }

  function SentBy(snapshot: seq<(User, nat)>, wallets: set<User>, turn: nat -> Turn, i: nat): seq<(User, nat)>
    decreases |snapshot|
  {
    if snapshot == [] then []
    else (if ClaimedFor(snapshot[0].0, wallets, turn(i)) then [snapshot[0]] else [])
         + SentBy(snapshot[1..], wallets, turn, i + 1)
  }

  lemma {:induction false} ProcessMarks(p: Processed, snapshot: seq<(User, nat)>, wallets: set<User>,
                                        turn: nat -> Turn, i: nat, k: nat)
    requires k < |p.records|
    ensures var q := Process(p, snapshot, wallets, turn, i);
            k < |q.records| && q.records[k] == MarkedBy(p.records[k], snapshot, wallets, turn, i)
    decreases |snapshot|
  {
    if snapshot != [] {
      var next := NextProcessed(p, snapshot, wallets, turn, i);
      ProcessNext(p, snapshot, wallets, turn, i);
      TurnOutcome(p.records, snapshot[0].0, turn(i), snapshot[0].0 in wallets, k);
      ProcessMarks(next, snapshot[1..], wallets, turn, i + 1, k);
    }
  }

  lemma {:induction false} ProcessSends(p: Processed, snapshot: seq<(User, nat)>, wallets: set<User>,
                                        turn: nat -> Turn, i: nat)
    ensures Process(p, snapshot, wallets, turn, i).sent == p.sent + SentBy(snapshot, wallets, turn, i)
    decreases |snapshot|
  {
    if snapshot != [] {
      ProcessNext(p, snapshot, wallets, turn, i);
      ProcessSends(NextProcessed(p, snapshot, wallets, turn, i), snapshot[1..], wallets, turn, i + 1);
    }
  }

  function NextProcessed(p: Processed, snapshot: seq<(User, nat)>, wallets: set<User>, turn: nat -> Turn,
                         i: nat): Processed
    requires snapshot != []
  {
    var (u, total) := snapshot[0];
    Processed(TurnRecords(p.records, u, turn(i), u in wallets),
              if u in wallets && turn(i).tx.Some? then p.sent + [(u, total)] else p.sent)
  }

  lemma ProcessNext(p: Processed, snapshot: seq<(User, nat)>, wallets: set<User>, turn: nat -> Turn, i: nat)
    requires snapshot != []
    ensures Process(p, snapshot, wallets, turn, i)
         == Process(NextProcessed(p, snapshot, wallets, turn, i), snapshot[1..], wallets, turn, i + 1)
    ensures NextProcessed(p, snapshot, wallets, turn, i).sent
         == if ClaimedFor(snapshot[0].0, wallets, turn(i)) then p.sent + [snapshot[0]] else p.sent
  {
  }

  ghost predicate EachOnce(snapshot: seq<(User, nat)>) {
    forall a, b :: 0 <= a < b < |snapshot| ==> snapshot[a].0 != snapshot[b].0
  }

  lemma {:induction false} OthersMarkNothing(r: Record, snapshot: seq<(User, nat)>, wallets: set<User>,
                                             turn: nat -> Turn, i: nat)
    requires r.claim.Claimed? || forall k :: 0 <= k < |snapshot| ==> snapshot[k].0 != r.user
    ensures MarkedBy(r, snapshot, wallets, turn, i) == r
    decreases |snapshot|
  {
    if snapshot != [] {
      assert forall k :: 0 <= k < |snapshot[1..]| ==> snapshot[1..][k] == snapshot[k + 1];
      OthersMarkNothing(r, snapshot[1..], wallets, turn, i + 1);
    }
  }

  lemma {:induction false} OwnTurnMarks(r: Record, snapshot: seq<(User, nat)>, wallets: set<User>,
                                        turn: nat -> Turn, i: nat, j: nat)
    requires j < |snapshot| && EachOnce(snapshot) && snapshot[j].0 == r.user && r.claim == Unclaimed
    ensures MarkedBy(r, snapshot, wallets, turn, i)
         == r.(claim := if ClaimedFor(r.user, wallets, turn(i + j)) then Claimed(turn(i + j).tx.value) else Unclaimed)
    decreases |snapshot|
  {
    var rest := snapshot[1..];
    assert forall k :: 0 <= k < |rest| ==> rest[k] == snapshot[k + 1];
    if j == 0 {
      OthersMarkNothing(if ClaimedFor(r.user, wallets, turn(i)) then MarkOne(r, r.user, turn(i).tx.value) else r,
                        rest, wallets, turn, i + 1);
    } else {
      assert snapshot[0].0 != snapshot[j].0 && i + 1 + (j - 1) == i + j;
      OwnTurnMarks(r, rest, wallets, turn, i + 1, j - 1);
    }
  }

  /** Over a round: an unclaimed record of the j-th user of the snapshot is marked, with that
      user's transaction, exactly if the user is claimed for. */
  lemma RoundMarks(p: Processed, snapshot: seq<(User, nat)>, wallets: set<User>, turn: nat -> Turn, j: nat, k: nat)
    requires EachOnce(snapshot) && j < |snapshot| && k < |p.records|
    requires p.records[k].user == snapshot[j].0 && p.records[k].claim == Unclaimed
    ensures var q := Process(p, snapshot, wallets, turn, 0);
            && k < |q.records|
            && q.records[k] == p.records[k].(claim := if snapshot[j].0 in wallets && turn(j).tx.Some?
                                                      then Claimed(turn(j).tx.value) else Unclaimed)
  {
    ProcessMarks(p, snapshot, wallets, turn, 0, k);
    OwnTurnMarks(p.records[k], snapshot, wallets, turn, 0, j);
  }

  /** Other records stay as they are: claimed ones, and those of users without a turn. */
  lemma RoundKeeps(p: Processed, snapshot: seq<(User, nat)>, wallets: set<User>, turn: nat -> Turn, k: nat)
    requires k < |p.records|
    requires p.records[k].claim.Claimed? || forall j :: 0 <= j < |snapshot| ==> snapshot[j].0 != p.records[k].user
    ensures var q := Process(p, snapshot, wallets, turn, 0); k < |q.records| && q.records[k] == p.records[k]
  {
    ProcessMarks(p, snapshot, wallets, turn, 0, k);
    OthersMarkNothing(p.records[k], snapshot, wallets, turn, 0);
  }

  lemma {:induction false} NothingSentToOthers(snapshot: seq<(User, nat)>, wallets: set<User>, turn: nat -> Turn,
                                               i: nat, v: User)
    requires forall k :: 0 <= k < |snapshot| ==> snapshot[k].0 != v
    ensures SentTo(SentBy(snapshot, wallets, turn, i), v) == 0
    decreases |snapshot|
  {
    if snapshot != [] {
      var more := SentBy(snapshot[1..], wallets, turn, i + 1);
      assert snapshot[0].0 != v;
      assert forall k :: 0 <= k < |snapshot[1..]| ==> snapshot[1..][k] == snapshot[k + 1];
      NothingSentToOthers(snapshot[1..], wallets, turn, i + 1, v);
      assert ([snapshot[0]] + more)[1..] == more && [] + more == more;
    }
  }

  lemma {:induction false} OwnTurnSends(snapshot: seq<(User, nat)>, wallets: set<User>, turn: nat -> Turn,
                                        i: nat, j: nat)
    requires j < |snapshot| && EachOnce(snapshot)
    ensures SentTo(SentBy(snapshot, wallets, turn, i), snapshot[j].0)
         == if ClaimedFor(snapshot[j].0, wallets, turn(i + j)) then snapshot[j].1 else 0
    decreases |snapshot|
  {
    var rest, more := snapshot[1..], SentBy(snapshot[1..], wallets, turn, i + 1);
    assert forall k :: 0 <= k < |rest| ==> rest[k] == snapshot[k + 1];
    assert ([snapshot[0]] + more)[1..] == more && [] + more == more;
    if j == 0 {
      NothingSentToOthers(rest, wallets, turn, i + 1, snapshot[0].0);
    } else {
      assert snapshot[0].0 != snapshot[j].0 && i + 1 + (j - 1) == i + j;
      OwnTurnSends(rest, wallets, turn, i + 1, j - 1);
    }
  }

  lemma {:induction false} SentConcat(a: seq<(User, nat)>, b: seq<(User, nat)>, v: User)
    ensures SentTo(a + b, v) == SentTo(a, v) + SentTo(b, v)
  {
    if a == [] {
      assert a + b == b;
    } else {
      assert (a + b)[1..] == a[1..] + b;
      SentConcat(a[1..], b, v);
    }
  }

  /** And the j-th user is sent the points of the snapshot, or nothing. */
  lemma RoundSends(p: Processed, snapshot: seq<(User, nat)>, wallets: set<User>, turn: nat -> Turn, j: nat)
    requires j < |snapshot| && EachOnce(snapshot)
    ensures SentTo(Process(p, snapshot, wallets, turn, 0).sent, snapshot[j].0)
         == SentTo(p.sent, snapshot[j].0)
            + if snapshot[j].0 in wallets && turn(j).tx.Some? then snapshot[j].1 else 0
  {
    ProcessSends(p, snapshot, wallets, turn, 0);
    SentConcat(p.sent, SentBy(snapshot, wallets, turn, 0), snapshot[j].0);
    OwnTurnSends(snapshot, wallets, turn, 0, j);
  }

  /** The snapshot holds each user with unclaimed points once, with these points. */
  lemma SnapshotExactly(rs: seq<Record>)
    ensures var s := Snapshot(rs);
            && (forall u :: InSnapshot(s, u) <==> exists r :: r in rs && r.user == u && r.claim == Unclaimed)
            && EachOnce(s)
            && (forall j :: 0 <= j < |s| ==> s[j].1 == EarnedEver(Unclaimeds(rs), s[j].0))
  {
    var us, s := UnclaimedUsers(rs), Snapshot(rs);
    forall u ensures InSnapshot(s, u) <==> u in us {
      if u in us {
        var j :| 0 <= j < |us| && us[j] == u;
        assert s[j].0 == u;
      }
    }
    assert forall u :: u in us <==> exists r :: r in rs && r.user == u && r.claim.Unclaimed?;
    assert forall r: Record :: r.claim.Unclaimed? <==> r.claim == Unclaimed;
    forall j | 0 <= j < |s| ensures s[j].1 == EarnedEver(Unclaimeds(rs), s[j].0) {
      UnclaimedSums(rs, s[j].0);
    }
  }

  predicate InSnapshot(s: seq<(User, nat)>, u: User) { exists j :: 0 <= j < |s| && s[j].0 == u }

  function Unclaimeds(rs: seq<Record>): seq<Record> {
    if rs == [] then [] else Unclaimeds(rs[..|rs| - 1]) + if rs[|rs| - 1].claim == Unclaimed then [rs[|rs| - 1]] else []
  }

  lemma {:induction false} UnclaimedSums(rs: seq<Record>, u: User)
    ensures EarnedEver(Unclaimeds(rs), u) == UnclaimedEp(rs, u)
  {
    if rs != [] {
      var front, last := rs[..|rs| - 1], rs[|rs| - 1];
      assert rs == front + [last];
      UnclaimedSums(front, u);
      SumConcat(front, [last], UnclaimedOf(u));
      SumOne(last, UnclaimedOf(u));
      if last.claim == Unclaimed {
        assert (Unclaimeds(front) + [last])[..|Unclaimeds(front)|] == Unclaimeds(front);
      } else {
        assert Unclaimeds(rs) == Unclaimeds(front);
      }
    }
  }
}
