/** EP points: awarding them under a daily cap and cooldowns, and claiming them on chain. */
module RewardLedger {
  import opened Sequences

  // ---------- Tables ----------

  datatype Action =
    | SubscriptionPayment | MarketplacePurchase | ResourceUpgrade
    | ServerAdded | TemplateShared | BugReport | Uptime99Monthly | MonitoringAlertSetup | BackupConfigured
    | AiAppInstalled | StackBuilderUsed | AiStackCompleted | AiAssistantUsed | AppPublishedMarket | AiModelDeployed
    | ReferralSignup | ReferralPaid
    | ProductListed | ProductSale | FiveStarReview

  /** An action name: one of the table, or one that is not defined. */
  datatype Request = Known(action: Action) | Undefined(name: string)

  function Reward(a: Action): (ep: nat)
    ensures 5 <= ep <= 1000
  {
    match a
    case SubscriptionPayment => 100
    case MarketplacePurchase => 50
    case ResourceUpgrade => 75
    case ServerAdded => 20
    case TemplateShared => 200
    case BugReport => 50
    case Uptime99Monthly => 150
    case MonitoringAlertSetup => 10
    case BackupConfigured => 15
    case AiAppInstalled => 30
    case StackBuilderUsed => 50
    case AiStackCompleted => 100
    case AiAssistantUsed => 5
    case AppPublishedMarket => 300
    case AiModelDeployed => 75
    case ReferralSignup => 500
    case ReferralPaid => 1000
    case ProductListed => 30
    case ProductSale => 100
    case FiveStarReview => 25
  }

  const DAILY_EP_LIMIT: nat := 5000

  /** Clocks count microseconds, the resolution of Python's datetime. */
  const SECOND: int := 1000000
  const DAY: int := 86400 * SECOND

  /** The cooldown of an action in microseconds, if it has one. */
  function Cooldown(a: Action): (c: Option<int>)
    ensures c.Some? ==> c.value > 0
  {
    match a
    case ServerAdded => Some(300 * SECOND)
    case TemplateShared => Some(3600 * SECOND)
    case ProductListed => Some(600 * SECOND)
    case AiAppInstalled => Some(120 * SECOND)
    case AiAssistantUsed => Some(30 * SECOND)
    case StackBuilderUsed => Some(300 * SECOND)
    case _ => None
  }

  /** The UTC date of an instant. */
  function Date(t: nat): nat { t / DAY }

  // ---------- Records and queries ----------

  type User = int

  datatype Claim = Unclaimed | Claimed(tx: string)

  datatype Record = Record(user: User, action: Action, ep: nat, createdAt: nat, claim: Claim)

  /** `sum(ep_amount)` over the records that pass the filter; an empty sum is 0. */
  function Sum(rs: seq<Record>, f: Record -> bool): nat {
    if rs == [] then 0 else (if f(rs[0]) then rs[0].ep else 0) + Sum(rs[1..], f)
  }

  function OfUser(u: User): Record -> bool { (r: Record) => r.user == u }

  function UnclaimedOf(u: User): Record -> bool { (r: Record) => r.user == u && r.claim.Unclaimed? }

  function ClaimedOf(u: User): Record -> bool { (r: Record) => r.user == u && r.claim.Claimed? }

  function OfDate(u: User, date: nat): Record -> bool { (r: Record) => r.user == u && Date(r.createdAt) == date }

  function TotalEp(rs: seq<Record>, u: User): nat { Sum(rs, OfUser(u)) }

  function UnclaimedEp(rs: seq<Record>, u: User): nat { Sum(rs, UnclaimedOf(u)) }

  function ClaimedEp(rs: seq<Record>, u: User): nat { Sum(rs, ClaimedOf(u)) }

  function DailyTotal(rs: seq<Record>, u: User, date: nat): nat { Sum(rs, OfDate(u, date)) }

  predicate Matches(r: Record, u: User, a: Action) { r.user == u && r.action == a }

  /** The creation time of the user's latest record of the action. */
  function LastAction(rs: seq<Record>, u: User, a: Action): (t: Option<nat>)
    ensures t.None? <==> forall r :: r in rs ==> !Matches(r, u, a)
    ensures t.Some? ==> (forall r :: r in rs && Matches(r, u, a) ==> r.createdAt <= t.value)
    ensures t.Some? ==> exists r :: r in rs && Matches(r, u, a) && r.createdAt == t.value
  {
    if rs == [] then None
    else
      var rest := LastAction(rs[1..], u, a);
      assert rs == [rs[0]] + rs[1..];
      if !Matches(rs[0], u, a) then rest
      else if rest.Some? && rest.value >= rs[0].createdAt then rest
      else Some(rs[0].createdAt)
  }

  // ---------- Awarding ----------

  /** The three clock readings of one award: for the date, for the cooldown, and the
      creation time the database enters. */
  datatype Clock = Clock(today: nat, check: nat, created: nat)
  {
    predicate Valid() { today <= check <= created }
  }

  predicate Allowed(rs: seq<Record>, u: User, a: Action, c: Clock) {
    && DailyTotal(rs, u, Date(c.today)) + Reward(a) <= DAILY_EP_LIMIT
    && (Cooldown(a).Some? && LastAction(rs, u, a).Some? ==>
          c.check - LastAction(rs, u, a).value >= Cooldown(a).value)
  }

  function Award(rs: seq<Record>, u: User, q: Request, c: Clock): seq<Record> {
    if q.Known? && Allowed(rs, u, q.action, c) then
      rs + [Record(u, q.action, Reward(q.action), c.created, Unclaimed)]
    else rs
  }

  // ---------- Claiming ----------

  function MarkOne(r: Record, u: User, tx: string): Record {
    if r.user == u && r.claim.Unclaimed? then r.(claim := Claimed(tx)) else r
  }

  function Mark(rs: seq<Record>, u: User, tx: string): (out: seq<Record>)
    ensures |out| == |rs| && forall i :: 0 <= i < |rs| ==> out[i] == MarkOne(rs[i], u, tx)
  {
    if rs == [] then [] else [MarkOne(rs[0], u, tx)] + Mark(rs[1..], u, tx)
  }

  /** The users with unclaimed records, each once, in order of first appearance. */
  function UnclaimedUsers(rs: seq<Record>): (us: seq<User>)
    ensures forall u :: u in us <==> exists r :: r in rs && r.user == u && r.claim.Unclaimed?
    ensures forall i, j :: 0 <= i < j < |us| ==> us[i] != us[j]
  {
    if rs == [] then []
    else
      var n := |rs| - 1;
      var us := UnclaimedUsers(rs[..n]);
      assert rs == rs[..n] + [rs[n]];
      if rs[n].claim.Unclaimed? && rs[n].user !in us then us + [rs[n].user] else us
  }

  function Snapshot(rs: seq<Record>): seq<(User, nat)> {
    var us := UnclaimedUsers(rs);
    seq(|us|, i requires 0 <= i < |us| => (us[i], UnclaimedEp(rs, us[i])))
  }

  // ---------- The engine ----------

  datatype ClaimType = Cashback | Marketplace | AiWork | Work

  function ClaimTypeOf(a: Action): ClaimType {
    if a in {SubscriptionPayment, MarketplacePurchase, ResourceUpgrade} then Cashback
    else if a in {ProductListed, ProductSale, FiveStarReview} then Marketplace
    else if a in {AiAppInstalled, StackBuilderUsed, AiStackCompleted,
                  AiAssistantUsed, AppPublishedMarket, AiModelDeployed} then AiWork
    else Work
  }

  datatype Awarded = Awarded(ep: nat, total: nat, action: Action, claimType: ClaimType)

  function AwardReport(rs: seq<Record>, u: User, a: Action): Awarded {
    Awarded(Reward(a), TotalEp(rs, u), a, ClaimTypeOf(a))
  }

  datatype AwardCall = AwardCall(user: User, request: Request, clock: Clock)

  /** What happens around one user of the snapshot: awards before its turn, the outcome of
      the submission, and awards between submission and marking. */
  datatype Turn = Turn(before: seq<AwardCall>, tx: Option<string>, after: seq<AwardCall>)

  class RewardEngine {
    var records: seq<Record>

    constructor ()
      ensures records == []
    {
      records := [];
    }

    method AwardEp(c: AwardCall) returns (r: Option<Awarded>)
      modifies this
      ensures records == Award(old(records), c.user, c.request, c.clock)
      ensures r.Some? <==> records != old(records)
      ensures r.Some? ==> c.request.Known? && r.value == AwardReport(records, c.user, c.request.action)
    {
      if c.request.Undefined? {
        return None;
      }
      var a := c.request.action;
      var amount := Reward(a);
      var today := DailyTotal(records, c.user, Date(c.clock.today));
      if today + amount > DAILY_EP_LIMIT {
        return None;
      }
      if Cooldown(a).Some? {
        var last := LastAction(records, c.user, a);
        if last.Some? && c.clock.check - last.value < Cooldown(a).value {
          return None;
        }
      }
      records := records + [Record(c.user, a, amount, c.clock.created, Unclaimed)];
      r := Some(AwardReport(records, c.user, a));
    }

    method AwardEach(calls: seq<AwardCall>)
      modifies this
      ensures records == AwardAll(old(records), calls)
    {
      var i := 0;
      while i < |calls|
        invariant 0 <= i <= |calls|
        invariant AwardAll(old(records), calls) == AwardAll(records, calls[i..])
      {
        var r := AwardEp(calls[i]);
        i := i + 1;
      }
    }

    method MarkClaimed(u: User, tx: string)
      modifies this
      ensures records == Mark(old(records), u, tx)
    {
      records := Mark(records, u, tx);
    }

    /** One user of the snapshot: skipped, or submitted and marked; awards go on. */
    method TakeTurn(u: User, t: Turn, hasWallet: bool) returns (submitted: bool)
      modifies this
      ensures records == TurnRecords(old(records), u, t, hasWallet)
      ensures submitted <==> hasWallet && t.tx.Some?
    {
      AwardEach(t.before);
      submitted := hasWallet && t.tx.Some?;
      if submitted {
        AwardEach(t.after);
        MarkClaimed(u, t.tx.value);
      }
    }

    /** Claims the unclaimed points of every user with a wallet, if the chain is there. */
    method ProcessPendingClaims(available: bool, wallets: set<User>, turn: nat -> Turn) returns (processed: nat)
      modifies this
      ensures !available ==> records == old(records) && processed == 0
      ensures available ==>
                var p := Process(Processed(old(records), []), Snapshot(old(records)), wallets, turn, 0);
                records == p.records && processed == |p.sent|
    {
      if !available {
        return 0;
      }
      var unclaimed := Snapshot(records);
      processed := 0;
      ghost var sent := [];
      ghost var p := Process(Processed(records, []), unclaimed, wallets, turn, 0);
      var i := 0;
      while i < |unclaimed|
        invariant 0 <= i <= |unclaimed| && processed == |sent|
        invariant p == Process(Processed(records, sent), unclaimed[i..], wallets, turn, i)
      {
        var (u, total) := unclaimed[i];
        assert unclaimed[i..][0] == unclaimed[i] && unclaimed[i..][1..] == unclaimed[i + 1..];
        var submitted := TakeTurn(u, turn(i), u in wallets);
        if submitted {
          processed := processed + 1;
          sent := sent + [(u, total)];
        }
        i := i + 1;
      }
    }
  }

  function AwardAll(rs: seq<Record>, calls: seq<AwardCall>): seq<Record>
    decreases |calls|
  {
    if calls == [] then rs
    else AwardAll(Award(rs, calls[0].user, calls[0].request, calls[0].clock), calls[1..])
  }

  function TurnRecords(rs: seq<Record>, u: User, t: Turn, hasWallet: bool): seq<Record> {
    var rs1 := AwardAll(rs, t.before);
    if hasWallet && t.tx.Some? then Mark(AwardAll(rs1, t.after), u, t.tx.value) else rs1
  }

  /** The ledger, and what was submitted on chain so far. */
  datatype Processed = Processed(records: seq<Record>, sent: seq<(User, nat)>)

  /** The turns of the users of a snapshot, the first of which has number i. */
  function Process(p: Processed, snapshot: seq<(User, nat)>, wallets: set<User>, turn: nat -> Turn, i: nat): Processed
    decreases |snapshot|
  {
    if snapshot == [] then p
    else
      var (u, total) := snapshot[0];
      var rs := TurnRecords(p.records, u, turn(i), u in wallets);
      var sent := if u in wallets && turn(i).tx.Some? then p.sent + [(u, total)] else p.sent;
      Process(Processed(rs, sent), snapshot[1..], wallets, turn, i + 1)
  }

  // ---------- Sums ----------

  lemma {:induction false} SumConcat(a: seq<Record>, b: seq<Record>, f: Record -> bool)
    ensures Sum(a + b, f) == Sum(a, f) + Sum(b, f)
  {
    if a == [] {
      assert a + b == b;
    } else {
      assert (a + b)[1..] == a[1..] + b;
      SumConcat(a[1..], b, f);
    }
  }

  lemma SumOne(r: Record, f: Record -> bool)
    ensures Sum([r], f) == if f(r) then r.ep else 0
  {
    assert [r][1..] == [];
  }

  lemma {:induction false} SumNone(rs: seq<Record>, f: Record -> bool)
    requires forall r :: r in rs ==> !f(r)
    ensures Sum(rs, f) == 0
  {
    if rs != [] {
      assert rs[0] in rs;
      SumNone(rs[1..], f);
    }
  }

  /** In every ledger, claimed and unclaimed points make up the total. */
  lemma {:induction false} ClaimedPlusUnclaimed(rs: seq<Record>, u: User)
    ensures ClaimedEp(rs, u) + UnclaimedEp(rs, u) == TotalEp(rs, u)
  {
    if rs != [] {
      ClaimedPlusUnclaimed(rs[1..], u);
    }
  }

  /** Marking moves all unclaimed points of one user, and touches nobody else. */
  lemma {:induction false} MarkMoves(rs: seq<Record>, u: User, tx: string, v: User)
    ensures TotalEp(Mark(rs, u, tx), v) == TotalEp(rs, v)
    ensures UnclaimedEp(Mark(rs, u, tx), v) == if v == u then 0 else UnclaimedEp(rs, v)
    ensures ClaimedEp(Mark(rs, u, tx), v) == if v == u then TotalEp(rs, v) else ClaimedEp(rs, v)
  {
    if rs != [] {
      MarkMoves(rs[1..], u, tx, v);
      assert Mark(rs, u, tx)[1..] == Mark(rs[1..], u, tx);
    }
  }
}
