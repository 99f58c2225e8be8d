/** The hash chain over log entries: stamping, restoring after a restart, verifying. */
module HashChain {
  import opened Sequences
  import opened Text
  import opened Sorting

  function Genesis(): string { seq(64, _ => '0') }

  /** The metadata of a stamped entry, field by field as it may be found in a log. */
  datatype Meta = Meta(entryHash: Option<string>, prevHash: Option<string>,
                       chainHash: Option<string>, index: Option<int>)

  /** The `extra` of an entry: a dictionary with or without a `law_5651` dictionary that is
      not empty, or something that is no dictionary. */
  datatype Extra = NoDict | Dict(rest: map<string, string>, law: Option<Meta>)

  /** The id, the other nine canonical fields, and the extra. */
  datatype Entry = Entry(id: Option<int>, fields: seq<string>, extra: Extra)

  /** What the canonical form of an entry is made from: everything but the metadata. */
  datatype Payload = Payload(id: Option<int>, fields: seq<string>, rest: map<string, string>)

  function PayloadOf(e: Entry): Payload {
    Payload(e.id, e.fields, if e.extra.Dict? then e.extra.rest else map[])
  }

  /** The extra without the metadata. */
  function RestOf(e: Entry): map<string, string> {
    match e.extra
    case Dict(rest, _) => rest
    case NoDict => map[]
  }

  function LawOf(e: Entry): Option<Meta> {
    if e.extra.Dict? then e.extra.law else None
  }

  /** `int(entry.get('id') or 0)` */
  function IdOf(e: Entry): int { if e.id.Some? then e.id.value else 0 }

  /** The canonical encoding and the hash, both left open. */
  datatype Suite = Suite(canon: Payload -> string, sha: string -> string)
  {
    ghost predicate Valid() { forall x :: IsHash(sha(x)) }

    function EntryHash(e: Entry): string { sha(canon(PayloadOf(e))) }

    function ChainHash(prev: string, entryHash: string): string { sha(prev + ":" + entryHash) }
  }

  predicate IsHash(s: string) {
    |s| == 64 && forall c :: c in s ==> '0' <= c <= '9' || 'a' <= c <= 'f'
  }

  // ---------- Stamping and restoring ----------

  datatype TsaStatus = Stamped | Failed | Skipped

  /** The chain state of a stamper and its counters. */
  datatype Chain = Chain(index: nat, lastHash: string, lastId: int, stamped: nat, failed: nat, skipped: nat)

  function Fresh(): Chain { Chain(0, Genesis(), 0, 0, 0, 0) }

  /** enabled && tsa_client */
  datatype Config = Config(timestamps: bool, stampEvery: nat)
  {
    predicate Valid() { stampEvery >= 1 }
  }

  function Stamp(h: Suite, c: Config, s: Chain, e: Entry, tsa: TsaStatus): (Meta, Chain)
    requires c.Valid()
  {
    var index := s.index + 1;
    var entryHash := h.EntryHash(e);
    var chainHash := h.ChainHash(s.lastHash, entryHash);
    var status := if c.timestamps && index % c.stampEvery == 0 then tsa else Skipped;
    (Meta(Some(entryHash), Some(s.lastHash), Some(chainHash), Some(index)),
     Chain(index, chainHash, IdOf(e),
           s.stamped + (if status.Stamped? then 1 else 0),
           s.failed + (if status.Failed? then 1 else 0),
           s.skipped + (if status.Skipped? then 1 else 0)))
  }

  /** The entry the store keeps: its extra with the metadata entered. */
  function WithMeta(e: Entry, m: Meta): Entry {
    e.(extra := Dict(PayloadOf(e).rest, Some(m)))
  }

  function Lower(s: string): string {
    seq(|s|, i requires 0 <= i < |s| =>
      if 'A' <= s[i] <= 'Z' then ((s[i] as int) + 32) as char else s[i])
  }

  /** The chain hash as a restart reads it. */
  function ReadHash(m: Meta): string {
    Lower(Strip(if m.chainHash.Some? then m.chainHash.value else []))
  }

  function RestoreOne(s: Chain, e: Entry): Chain {
    var law := LawOf(e);
    if law.None? then s
    else
      var hash := ReadHash(law.value);
      var index := if law.value.index.Some? then law.value.index.value else 0;
      if |hash| == 64 && index > s.index then s.(index := index, lastHash := hash, lastId := IdOf(e)) else s
  }

  function Restore(s: Chain, entries: seq<Entry>): Chain
    decreases |entries|
  {
    if entries == [] then s else Restore(RestoreOne(s, entries[0]), entries[1..])
  }

  lemma RestoreFirst(s: Chain, entries: seq<Entry>, i: nat)
    requires i < |entries|
    ensures Restore(s, entries[i..]) == Restore(RestoreOne(s, entries[i]), entries[i + 1..])
  {
    assert entries[i..][0] == entries[i] && entries[i..][1..] == entries[i + 1..];
  }

  // ---------- Verifying ----------

  datatype Reason = NoReason | MetaMissing | EntryHashDiffers | PrevHashBroken | ChainHashDiffers

  datatype Report = Report(ok: bool, verified: nat, brokenAt: Option<int>, reason: Reason)

  /** What is wrong with an entry that should follow the chain hash prev. */
  function Check(h: Suite, prev: string, e: Entry): Reason {
    var law := LawOf(e);
    if law.None? then MetaMissing
    else if law.value.entryHash != Some(h.EntryHash(e)) then EntryHashDiffers
    else if law.value.prevHash != Some(prev) then PrevHashBroken
    else if law.value.chainHash != Some(h.ChainHash(prev, h.EntryHash(e))) then ChainHashDiffers
    else NoReason
  }

  function VerifyFrom(h: Suite, ordered: seq<Entry>, prev: string, verified: nat): Report
    decreases |ordered|
  {
    if ordered == [] then Report(true, verified, None, NoReason)
    else
      var reason := Check(h, prev, ordered[0]);
      if reason != NoReason then Report(false, verified, Some(IdOf(ordered[0])), reason)
      else VerifyFrom(h, ordered[1..], h.ChainHash(prev, h.EntryHash(ordered[0])), verified + 1)
  }

  /** `sorted(entries, key=id)` */
  function SortById(entries: seq<Entry>): (r: seq<Entry>) { SortBy(IdOf, entries) }

  function Verify(h: Suite, entries: seq<Entry>): Report {
    VerifyFrom(h, SortById(entries), Genesis(), 0)
  }

  class Stamper {
    const suite: Suite
    const config: Config
    var chainIndex: nat
    var lastChainHash: string
    var lastEntryId: int
    var totalStamped: nat
    var totalFailed: nat
    var totalSkipped: nat

    constructor (suite: Suite, timestamps: bool, stampEvery: int)
      ensures this.suite == suite && config.Valid() && State() == Fresh()
      ensures lastChainHash == seq(64, _ => '0') && chainIndex == 0
      ensures config == Config(timestamps, if stampEvery >= 1 then stampEvery else 1)
    {
      this.suite := suite;
      config := Config(timestamps, if stampEvery >= 1 then stampEvery else 1);
      chainIndex, lastChainHash, lastEntryId := 0, Genesis(), 0;
      totalStamped, totalFailed, totalSkipped := 0, 0, 0;
    }

    function State(): Chain
      reads this
    {
      Chain(chainIndex, lastChainHash, lastEntryId, totalStamped, totalFailed, totalSkipped)
    }

    method RestoreFromEntries(entries: seq<Entry>)
      modifies this
      ensures State() == Restore(old(State()), entries)
    {
      var i := 0;
      while i < |entries|
        invariant 0 <= i <= |entries|
        invariant Restore(old(State()), entries) == Restore(State(), entries[i..])
      {
        var law := LawOf(entries[i]);
        ghost var next := RestoreOne(State(), entries[i]);
        RestoreFirst(State(), entries, i);
        if law.Some? {
          var hash := ReadHash(law.value);
          var index := if law.value.index.Some? then law.value.index.value else 0;
          if |hash| == 64 && index > chainIndex {
            chainIndex := index;
            lastChainHash := hash;
            lastEntryId := IdOf(entries[i]);
          }
        }
        assert State() == next;
        i := i + 1;
      }
    }

    method StampEntry(e: Entry, tsa: TsaStatus) returns (m: Meta)
      requires config.Valid()
      modifies this
      ensures (m, State()) == Stamp(suite, config, old(State()), e, tsa)
      ensures m == Meta(Some(suite.sha(suite.canon(Payload(e.id, e.fields, RestOf(e))))), Some(old(lastChainHash)),
                        Some(suite.sha(old(lastChainHash) + ":" + m.entryHash.value)), Some(old(chainIndex) + 1))
      ensures Some(lastChainHash) == m.chainHash && chainIndex == old(chainIndex) + 1
      ensures lastEntryId == if e.id.Some? then e.id.value else 0
      ensures var sent := config.timestamps && chainIndex % config.stampEvery == 0;
              && totalStamped == old(totalStamped) + (if sent && tsa.Stamped? then 1 else 0)
              && totalFailed == old(totalFailed) + (if sent && tsa.Failed? then 1 else 0)
      ensures totalStamped + totalFailed + totalSkipped == old(totalStamped + totalFailed + totalSkipped) + 1
    {
      chainIndex := chainIndex + 1;
      var prev := lastChainHash;
      var entryHash := suite.EntryHash(e);
      var chainHash := suite.ChainHash(prev, entryHash);
      var status := Skipped;
      if config.timestamps && chainIndex % config.stampEvery == 0 {
        status := tsa;
      }
      match status {
        case Stamped => totalStamped := totalStamped + 1;
        case Failed => totalFailed := totalFailed + 1;
        case Skipped => totalSkipped := totalSkipped + 1;
      }
      lastChainHash := chainHash;
      lastEntryId := IdOf(e);
      m := Meta(Some(entryHash), Some(prev), Some(chainHash), Some(chainIndex));
    }

    method VerifyEntries(entries: seq<Entry>) returns (r: Report)
      ensures r == Verify(suite, entries)
    {
      var ordered := SortById(entries);
      var prev := Genesis();
      var verified := 0;
      while verified < |ordered|
        invariant 0 <= verified <= |ordered|
        invariant VerifyFrom(suite, ordered, Genesis(), 0) == VerifyFrom(suite, ordered[verified..], prev, verified)
      {
        var e := ordered[verified];
        var reason := Check(suite, prev, e);
        assert ordered[verified..][1..] == ordered[verified + 1..];
        if reason != NoReason {
          return Report(false, verified, Some(IdOf(e)), reason);
        }
        prev := suite.ChainHash(prev, suite.EntryHash(e));
        verified := verified + 1;
      }
      r := Report(true, verified, None, NoReason);
    }
  }

  // ---------- The log over restarts ----------

  /** The chain hash behind the first entries of a log. */
  function HashAfter(h: Suite, log: seq<Entry>): string {
    if log == [] then Genesis()
    else h.ChainHash(HashAfter(h, log[..|log| - 1]), h.EntryHash(log[|log| - 1]))
  }

  /** The service starts again and restores from some entries, or an entry is logged. */
  datatype Event = Restart(entries: seq<Entry>) | Add(entry: Entry, tsa: TsaStatus)

  datatype Service = Service(chain: Chain, log: seq<Entry>)

  function Handle(h: Suite, c: Config, s: Service, ev: Event): Service
    requires c.Valid()
  {
    match ev
    case Restart(entries) => Service(Restore(Fresh(), entries), s.log)
    case Add(e, tsa) =>
      var (m, chain) := Stamp(h, c, s.chain, e, tsa);
      Service(chain, s.log + [WithMeta(e, m)])
  }

  /** A restart sees entries of the log only, in any order, among them the last one; an
      added entry has a greater id than the last one. */
  ghost predicate Proper(s: Service, ev: Event) {
    match ev
    case Restart(entries) =>
      && (forall e :: e in entries ==> e in s.log)
      && (s.log != [] ==> s.log[|s.log| - 1] in entries)
    case Add(e, _) => s.log != [] ==> IdOf(s.log[|s.log| - 1]) < IdOf(e)
  }

  function After(h: Suite, c: Config, events: seq<Event>): Service
    requires c.Valid()
  {
    if events == [] then Service(Fresh(), [])
    else Handle(h, c, After(h, c, events[..|events| - 1]), events[|events| - 1])
  }

  ghost predicate ProperRun(h: Suite, c: Config, events: seq<Event>)
    requires c.Valid()
  {
    forall i :: 0 <= i < |events| ==> Proper(After(h, c, events[..i]), events[i])
  }

  /** Entry i of the log carries the chain up to it. */
  ghost predicate LinkedAt(h: Suite, log: seq<Entry>, i: nat)
    requires i < |log|
  {
    LawOf(log[i]) == Some(Meta(Some(h.EntryHash(log[i])), Some(HashAfter(h, log[..i])),
                               Some(HashAfter(h, log[..i + 1])), Some(i + 1)))
  }

  ghost predicate Linked(h: Suite, log: seq<Entry>) {
    forall i :: 0 <= i < |log| ==> LinkedAt(h, log, i)
  }

  ghost predicate Sound(h: Suite, s: Service) {
    && Linked(h, s.log) && Increasing(IdOf, s.log)
    && s.chain.index == |s.log| && s.chain.lastHash == HashAfter(h, s.log)
  }

  lemma HashIsNormal(s: string)
    requires IsHash(s)
    ensures Lower(Strip(s)) == s
  {
    assert s[0] in s && s[63] in s;
    StripTight(s);
    assert forall i :: 0 <= i < |s| ==> s[i] in s;
  }

  lemma HashAfterIsHash(h: Suite, log: seq<Entry>)
    requires h.Valid()
    ensures IsHash(HashAfter(h, log))
  {
  }

  /** The chain state behind the first entries of the log. */
  ghost predicate StandsIn(h: Suite, log: seq<Entry>, s: Chain) {
    s.index <= |log| && s.lastHash == HashAfter(h, log[..s.index])
  }

  lemma RestoreOneOfLog(h: Suite, log: seq<Entry>, s: Chain, i: nat)
    requires h.Valid() && Linked(h, log) && StandsIn(h, log, s) && i < |log|
    ensures var r := RestoreOne(s, log[i]);
            StandsIn(h, log, r) && r.index == if i + 1 > s.index then i + 1 else s.index
  {
    assert LinkedAt(h, log, i);
    HashAfterIsHash(h, log[..i + 1]);
    RestoreOneMeta(s, log[i], HashAfter(h, log[..i + 1]), i + 1);
  }

  lemma RestoreOneMeta(s: Chain, e: Entry, hash: string, index: nat)
    requires LawOf(e).Some? && LawOf(e).value.chainHash == Some(hash) && LawOf(e).value.index == Some(index)
    requires IsHash(hash)
    ensures RestoreOne(s, e) == if index > s.index then s.(index := index, lastHash := hash, lastId := IdOf(e)) else s
  {
    assert ReadHash(LawOf(e).value) == hash by { HashIsNormal(hash); }
  }

  /** Restoring from entries of the log gives the chain behind the latest of them. */
  lemma {:induction false} RestoreFindsLatest(h: Suite, log: seq<Entry>, s: Chain, entries: seq<Entry>, k: nat)
    requires h.Valid() && Linked(h, log) && StandsIn(h, log, s)
    requires forall e :: e in entries ==> e in log
    requires k < |log| && (log[k] in entries || k + 1 <= s.index)
    ensures var r := Restore(s, entries); StandsIn(h, log, r) && k + 1 <= r.index
    decreases |entries|
  {
    if entries != [] {
      var e := entries[0];
      assert e in entries && e in log;
      var i := if log[k] == e then k else IndexOf(log, e);
      RestoreOneOfLog(h, log, s, i);
      assert log[k] in entries ==> log[k] == e || log[k] in entries[1..];
      RestoreFindsLatest(h, log, RestoreOne(s, e), entries[1..], k);
    }
  }

  ghost function IndexOf(log: seq<Entry>, e: Entry): (i: nat)
    requires e in log
    ensures i < |log| && log[i] == e
  {
    var i :| 0 <= i < |log| && log[i] == e;
    i
  }

  lemma HandleKeepsSound(h: Suite, c: Config, s: Service, ev: Event)
    requires h.Valid() && c.Valid() && Sound(h, s) && Proper(s, ev)
    ensures Sound(h, Handle(h, c, s, ev))
  {
    match ev
    case Restart(entries) =>
      if entries != [] {
        assert entries[0] in entries && entries[0] in s.log;
      }
      if s.log != [] {
        RestoreFindsLatest(h, s.log, Fresh(), entries, |s.log| - 1);
        assert s.log[..|s.log|] == s.log;
      }
    case Add(e, tsa) =>
      AddKeepsLinked(h, c, s, e, tsa);
  }

  lemma AddKeepsLinked(h: Suite, c: Config, s: Service, e: Entry, tsa: TsaStatus)
    requires c.Valid() && Sound(h, s) && Proper(s, Add(e, tsa))
    ensures Sound(h, Handle(h, c, s, Add(e, tsa)))
  {
    var (m, chain) := Stamp(h, c, s.chain, e, tsa);
    var x := WithMeta(e, m);
    assert h.EntryHash(x) == h.EntryHash(e) by { assert PayloadOf(x) == PayloadOf(e); }
    LinkedLonger(h, s.log, x);
    IncreasingLonger(s.log, x);
    assert Handle(h, c, s, Add(e, tsa)) == Service(chain, s.log + [x]);
  }

  lemma IncreasingLonger(log: seq<Entry>, x: Entry)
    requires Increasing(IdOf, log) && (log != [] ==> IdOf(log[|log| - 1]) < IdOf(x))
    ensures Increasing(IdOf, log + [x])
  {
    forall i, j | 0 <= i < j <= |log| ensures IdOf((log + [x])[i]) < IdOf((log + [x])[j]) {
      assert i < |log| - 1 ==> IdOf(log[i]) < IdOf(log[|log| - 1]);
    }
  }

  /** A log with one more entry is linked if that entry carries the chain up to it. */
  lemma LinkedLonger(h: Suite, log: seq<Entry>, x: Entry)
    requires Linked(h, log)
    requires LawOf(x) == Some(Meta(Some(h.EntryHash(x)), Some(HashAfter(h, log)),
                                   Some(h.ChainHash(HashAfter(h, log), h.EntryHash(x))), Some(|log| + 1)))
    ensures Linked(h, log + [x])
    ensures HashAfter(h, log + [x]) == h.ChainHash(HashAfter(h, log), h.EntryHash(x))
  {
    var n, all := |log|, log + [x];
    assert all[..n] == log && all[n] == x && all[..n + 1] == all;
    forall i | 0 <= i < |all| ensures LinkedAt(h, all, i) {
      if i < n { StillLinked(h, log, x, i); }
    }
  }

  lemma StillLinked(h: Suite, log: seq<Entry>, x: Entry, i: nat)
    requires Linked(h, log) && i < |log|
    ensures LinkedAt(h, log + [x], i)
  {
    var all := log + [x];
    assert LinkedAt(h, log, i);
    assert all[..i] == log[..i] && all[..i + 1] == log[..i + 1] && all[i] == log[i];
  }

  lemma {:induction false} RunIsSound(h: Suite, c: Config, events: seq<Event>)
    requires h.Valid() && c.Valid() && ProperRun(h, c, events)
    ensures Sound(h, After(h, c, events))
    decreases |events|
  {
    if events != [] {
      var n := |events| - 1;
      ProperPrefix(h, c, events, n);
      RunIsSound(h, c, events[..n]);
      HandleKeepsSound(h, c, After(h, c, events[..n]), events[n]);
    }
  }

  lemma ProperPrefix(h: Suite, c: Config, events: seq<Event>, n: nat)
    requires c.Valid() && ProperRun(h, c, events) && n < |events|
    ensures ProperRun(h, c, events[..n]) && Proper(After(h, c, events[..n]), events[n])
  {
    var front := events[..n];
    forall i | 0 <= i < n ensures Proper(After(h, c, front[..i]), front[i]) {
      assert front[..i] == events[..i];
      assert Proper(After(h, c, events[..i]), events[i]);
    }
  }

  // ---------- Every stamped log verifies ----------

  lemma {:induction false} VerifyLinked(h: Suite, log: seq<Entry>, k: nat)
    requires Linked(h, log) && k <= |log|
    ensures VerifyFrom(h, log[k..], HashAfter(h, log[..k]), k) == Report(true, |log|, None, NoReason)
    decreases |log| - k
  {
    if k < |log| {
      assert LinkedAt(h, log, k);
      assert log[..k + 1][..k] == log[..k] && log[..k + 1][k] == log[k];
      assert log[k..][1..] == log[k + 1..];
      VerifyLinked(h, log, k + 1);
    }
  }

  /** Over any number of restarts, the log verifies in full, in whatever order it is given. */
  lemma StampedLogVerifies(h: Suite, c: Config, events: seq<Event>, entries: seq<Entry>)
    requires h.Valid() && c.Valid() && ProperRun(h, c, events)
    requires multiset(entries) == multiset(After(h, c, events).log)
    ensures Verify(h, entries) == Report(true, |entries|, None, NoReason)
  {
    var log := After(h, c, events).log;
    RunIsSound(h, c, events);
    SortSorts(IdOf, entries);
    OrderIsUnique(IdOf, log, SortById(entries));
    VerifyLinked(h, log, 0);
    assert log[0..] == log && log[..0] == [];
    SortedSameSize(IdOf, entries);
  }

  /** A stretch of the log verifies by itself exactly if it is empty or starts with the
      log's first entry: verifying only the latest entries reports a break at the first. */
  lemma OnlyPrefixesVerify(h: Suite, c: Config, events: seq<Event>, i: nat, j: nat)
    requires h.Valid() && c.Valid() && ProperRun(h, c, events)
    requires i <= j <= |After(h, c, events).log|
    requires HashAfter(h, After(h, c, events).log[..i]) == Genesis() ==> i == 0
    ensures var log := After(h, c, events).log;
            && (Verify(h, log[i..j]).ok <==> i == 0 || i == j)
            && (0 < i < j ==> Verify(h, log[i..j]) == Report(false, 0, Some(IdOf(log[i])), PrevHashBroken))
  {
    RunIsSound(h, c, events);
    StretchVerifies(h, After(h, c, events).log, i, j);
  }

  lemma StretchVerifies(h: Suite, log: seq<Entry>, i: nat, j: nat)
    requires Linked(h, log) && Increasing(IdOf, log) && i <= j <= |log|
    requires HashAfter(h, log[..i]) == Genesis() ==> i == 0
    ensures Verify(h, log[i..j]).ok <==> i == 0 || i == j
    ensures 0 < i < j ==> Verify(h, log[i..j]) == Report(false, 0, Some(IdOf(log[i])), PrevHashBroken)
  {
    SortKeepsSorted(IdOf, log[i..j]);
    if i == 0 {
      PrefixLinked(h, log, j);
      VerifyLinked(h, log[..j], 0);
      assert log[..j][0..] == log[0..j] && log[..j][..0] == [];
    } else if i < j {
      StretchBreaks(h, log, i, j);
    }
  }

  lemma PrefixLinked(h: Suite, log: seq<Entry>, j: nat)
    requires Linked(h, log) && j <= |log|
    ensures Linked(h, log[..j])
  {
    forall k | 0 <= k < j ensures LinkedAt(h, log[..j], k) {
      assert LinkedAt(h, log, k);
      assert log[..j][..k] == log[..k] && log[..j][..k + 1] == log[..k + 1];
    }
  }

  lemma StretchBreaks(h: Suite, log: seq<Entry>, i: nat, j: nat)
    requires Linked(h, log) && 0 < i < j <= |log| && HashAfter(h, log[..i]) != Genesis()
    ensures VerifyFrom(h, log[i..j], Genesis(), 0) == Report(false, 0, Some(IdOf(log[i])), PrevHashBroken)
  {
    assert log[i..j][0] == log[i];
    assert LinkedAt(h, log, i);
    assert Check(h, Genesis(), log[i]) == PrevHashBroken;
  }

  // ---------- What a failed verification says ----------

  lemma {:induction false} VerifyPrefixes(h: Suite, ordered: seq<Entry>, prev: string, n: nat, k: nat)
    requires k <= |ordered|
    ensures var r := VerifyFrom(h, ordered, prev, n);
            && n <= r.verified <= n + |ordered|
            && (VerifyFrom(h, ordered[..k], prev, n).ok <==> n + k <= r.verified)
            && (r.ok ==> r.verified == n + |ordered| && r.brokenAt == None)
            && (!r.ok ==> r.verified < n + |ordered| && r.brokenAt == Some(IdOf(ordered[r.verified - n])))
    decreases |ordered|
  {
    if ordered != [] && Check(h, prev, ordered[0]) == NoReason {
      var next := h.ChainHash(prev, h.EntryHash(ordered[0]));
      if k > 0 {
        VerifyPrefixes(h, ordered[1..], next, n + 1, k - 1);
        assert ordered[..k][1..] == ordered[1..][..k - 1];
      } else {
        VerifyPrefixes(h, ordered[1..], next, n + 1, 0);
      }
    }
  }

  /** `verified` is the length of the longest part, in id order, that verifies by itself,
      and `broken_at` is the id of the entry behind it. */
  lemma VerifiedIsLongestGoodPrefix(h: Suite, entries: seq<Entry>, k: nat)
    requires k <= |entries|
    ensures var r, ordered := Verify(h, entries), SortById(entries);
            && |ordered| == |entries|
            && (Verify(h, ordered[..k]).ok <==> k <= r.verified)
            && (r.ok <==> r.verified == |entries|)
            && (!r.ok ==> r.verified < |entries| && r.brokenAt == Some(IdOf(ordered[r.verified])))
  {
    var ordered := SortById(entries);
    SortedSameSize(IdOf, entries);
    SortSorts(IdOf, entries);
    SortKeepsSorted(IdOf, ordered[..k]);
    VerifyPrefixes(h, ordered, Genesis(), 0, k);
  }

  // ---------- Logs that end in the same hash ----------

  /** Everything that is hashed when the entries are chained. */
  function HashInputs(h: Suite, log: seq<Entry>): set<string> {
    if log == [] then {}
    else
      var n := |log| - 1;
      HashInputs(h, log[..n]) + {h.canon(PayloadOf(log[n])), HashAfter(h, log[..n]) + ":" + h.EntryHash(log[n])}
  }

  /** On these inputs the hash has no collision and never yields the genesis value. No
      more can be asked of a function from all strings to 64 hex digits. */
  ghost predicate NoCollision(h: Suite, inputs: set<string>) {
    && (forall x, y :: x in inputs && y in inputs && h.sha(x) == h.sha(y) ==> x == y)
    && (forall x :: x in inputs ==> h.sha(x) != Genesis())
  }

  function Canonical(h: Suite, log: seq<Entry>): seq<string> {
    seq(|log|, i requires 0 <= i < |log| => h.canon(PayloadOf(log[i])))
  }

  lemma JoinedHashesSplit(a: string, x: string, b: string, y: string)
    requires |a| == |b| && a + ":" + x == b + ":" + y
    ensures a == b && x == y
  {
    var s, t := a + ":" + x, b + ":" + y;
    assert a == s[..|a|] == t[..|b|] == b;
    assert x == s[|a| + 1..] == t[|b| + 1..] == y;
  }

  lemma LastInputs(h: Suite, a: seq<Entry>)
    requires a != []
    ensures var n := |a| - 1;
            && h.canon(PayloadOf(a[n])) in HashInputs(h, a)
            && HashAfter(h, a[..n]) + ":" + h.EntryHash(a[n]) in HashInputs(h, a)
            && HashInputs(h, a[..n]) <= HashInputs(h, a)
  {
  }

  lemma SameInput(h: Suite, inputs: set<string>, x: string, y: string)
    requires NoCollision(h, inputs) && x in inputs && y in inputs && h.sha(x) == h.sha(y)
    ensures x == y
  {
  }

  /** Equal chain hashes come from equal predecessors and equal last entries. */
  lemma SameLast(h: Suite, a: seq<Entry>, b: seq<Entry>, inputs: set<string>)
    requires h.Valid() && NoCollision(h, inputs) && HashInputs(h, a) <= inputs && HashInputs(h, b) <= inputs
    requires a != [] && b != [] && HashAfter(h, a) == HashAfter(h, b)
    ensures HashAfter(h, a[..|a| - 1]) == HashAfter(h, b[..|b| - 1])
    ensures h.canon(PayloadOf(a[|a| - 1])) == h.canon(PayloadOf(b[|b| - 1]))
  {
    var m, n := |a| - 1, |b| - 1;
    var prevA, prevB := HashAfter(h, a[..m]), HashAfter(h, b[..n]);
    var hashA, hashB := h.EntryHash(a[m]), h.EntryHash(b[n]);
    LastInputs(h, a);
    LastInputs(h, b);
    SameInput(h, inputs, prevA + ":" + hashA, prevB + ":" + hashB);
    HashAfterIsHash(h, a[..m]);
    HashAfterIsHash(h, b[..n]);
    JoinedHashesSplit(prevA, hashA, prevB, hashB);
    SameInput(h, inputs, h.canon(PayloadOf(a[m])), h.canon(PayloadOf(b[n])));
  }

  lemma NotGenesis(h: Suite, a: seq<Entry>, inputs: set<string>)
    requires NoCollision(h, inputs) && HashInputs(h, a) <= inputs && a != []
    ensures HashAfter(h, a) != Genesis()
  {
    LastInputs(h, a);
  }

  /** The last chain hash determines the number and the canonical form of all entries. */
  lemma {:induction false} SameHashSameEntries(h: Suite, a: seq<Entry>, b: seq<Entry>, inputs: set<string>)
    requires h.Valid() && NoCollision(h, inputs) && HashInputs(h, a) <= inputs && HashInputs(h, b) <= inputs
    requires HashAfter(h, a) == HashAfter(h, b)
    ensures Canonical(h, a) == Canonical(h, b)
    decreases |a|
  {
    if a == [] && b != [] {
      NotGenesis(h, b, inputs);
    } else if a != [] && b == [] {
      NotGenesis(h, a, inputs);
    } else if a != [] {
      SameLast(h, a, b, inputs);
      LastInputs(h, a);
      LastInputs(h, b);
      SameHashSameEntries(h, a[..|a| - 1], b[..|b| - 1], inputs);
      CanonicalLast(h, a);
      CanonicalLast(h, b);
    }
  }

  lemma CanonicalLast(h: Suite, a: seq<Entry>)
    requires a != []
    ensures Canonical(h, a) == Canonical(h, a[..|a| - 1]) + [h.canon(PayloadOf(a[|a| - 1]))]
  {
  }

  lemma VerifiedChainHash(h: Suite, ordered: seq<Entry>, k: nat)
    requires k < |ordered| && VerifyFrom(h, ordered[..k + 1], Genesis(), 0).ok
    ensures LawOf(ordered[k]).Some? && LawOf(ordered[k]).value.chainHash == Some(HashAfter(h, ordered[..k + 1]))
  {
    VerifyKeepsHash(h, ordered[..k + 1], 0);
    assert ordered[..k + 1][0..] == ordered[..k + 1] && ordered[..k + 1][..0] == [];
    assert ordered[..k + 1][..k + 1] == ordered[..k + 1];
  }

  lemma {:induction false} VerifyKeepsHash(h: Suite, log: seq<Entry>, k: nat)
    requires k < |log| && VerifyFrom(h, log[k..], HashAfter(h, log[..k]), k).ok
    ensures LawOf(log[|log| - 1]).Some? && LawOf(log[|log| - 1]).value.chainHash == Some(HashAfter(h, log))
    decreases |log| - k
  {
    assert log[..k + 1][..k] == log[..k] && log[..k + 1][k] == log[k];
    assert log[k..][1..] == log[k + 1..];
    if k + 1 < |log| {
      VerifyKeepsHash(h, log, k + 1);
    } else {
      assert log[..k + 1] == log;
    }
  }

  /** The chain hash the last entry of a log claims. */
  function EndHash(ordered: seq<Entry>): Option<string> {
    if ordered == [] then Some(Genesis())
    else if LawOf(ordered[|ordered| - 1]).Some? then LawOf(ordered[|ordered| - 1]).value.chainHash else None
  }

  /** Two logs that verify and end in the same chain hash have the same canonical entries
      in the same order. */
  lemma VerifiedLogsAgree(h: Suite, a: seq<Entry>, b: seq<Entry>)
    requires h.Valid() && Verify(h, a).ok && Verify(h, b).ok
    requires EndHash(SortById(a)) == EndHash(SortById(b))
    requires NoCollision(h, HashInputs(h, SortById(a)) + HashInputs(h, SortById(b)))
    ensures Canonical(h, SortById(a)) == Canonical(h, SortById(b)) && |a| == |b|
  {
    var x, y := SortById(a), SortById(b);
    EndHashIsChain(h, x);
    EndHashIsChain(h, y);
    SameHashSameEntries(h, x, y, HashInputs(h, x) + HashInputs(h, y));
    assert |Canonical(h, x)| == |x| && |Canonical(h, y)| == |y|;
    SortedSameSize(IdOf, a);
    SortedSameSize(IdOf, b);
  }

  lemma EndHashIsChain(h: Suite, x: seq<Entry>)
    requires VerifyFrom(h, x, Genesis(), 0).ok
    ensures EndHash(x) == Some(HashAfter(h, x))
  {
    if x != [] {
      assert x[..|x|] == x;
      VerifiedChainHash(h, x, |x| - 1);
    }
  }

  // ---------- A restart that misses the last entry ----------

  lemma {:induction false} RestoreStaysBelow(h: Suite, log: seq<Entry>, s: Chain, entries: seq<Entry>, n: nat)
    requires h.Valid() && Linked(h, log) && StandsIn(h, log, s) && s.index <= n <= |log|
    requires forall e :: e in entries ==> e in log[..n]
    ensures var r := Restore(s, entries); StandsIn(h, log, r) && r.index <= n
    decreases |entries|
  {
    if entries != [] {
      var e := entries[0];
      assert e in entries;
      RestoreOneOfLog(h, log, s, IndexOf(log[..n], e));
      RestoreStaysBelow(h, log, RestoreOne(s, e), entries[1..], n);
    }
  }

  /** A restart stands at the end of the log exactly if it sees the last entry. */
  lemma RestartStands(h: Suite, log: seq<Entry>, entries: seq<Entry>)
    requires h.Valid() && Linked(h, log) && log != [] && forall e :: e in entries ==> e in log
    ensures var r := Restore(Fresh(), entries);
            StandsIn(h, log, r) && (r.index == |log| <==> log[|log| - 1] in entries)
  {
    var n := |log| - 1;
    if log[n] in entries {
      RestoreFindsLatest(h, log, Fresh(), entries, n);
    } else {
      forall e | e in entries ensures e in log[..n] {
        var i := IndexOf(log, e);
        assert i != n && log[..n][i] == e;
      }
      RestoreStaysBelow(h, log, Fresh(), entries, n);
    }
  }

  lemma {:induction false} PrefixInputs(h: Suite, log: seq<Entry>, m: nat)
    requires m <= |log|
    ensures HashInputs(h, log[..m]) <= HashInputs(h, log)
    decreases |log|
  {
    if m < |log| {
      var n := |log| - 1;
      PrefixInputs(h, log[..n], m);
      assert log[..n][..m] == log[..m];
    } else {
      assert log[..m] == log;
    }
  }

  /** Without collisions a log's chain hash differs from those of its proper prefixes. */
  lemma PrefixHashDiffers(h: Suite, log: seq<Entry>, m: nat)
    requires h.Valid() && NoCollision(h, HashInputs(h, log)) && m < |log|
    ensures HashAfter(h, log[..m]) != HashAfter(h, log)
  {
    assert |Canonical(h, log[..m])| == m && |Canonical(h, log)| == |log|;
    PrefixInputs(h, log, m);
    if HashAfter(h, log[..m]) == HashAfter(h, log) {
      SameHashSameEntries(h, log[..m], log, HashInputs(h, log));
    }
  }

  /** One more entry is checked against the chain hash of the linked log before it. */
  lemma {:induction false} VerifyLinkedThen(h: Suite, log: seq<Entry>, e: Entry, k: nat)
    requires Linked(h, log) && k <= |log|
    ensures VerifyFrom(h, log[k..] + [e], HashAfter(h, log[..k]), k) == VerifyFrom(h, [e], HashAfter(h, log), |log|)
    decreases |log| - k
  {
    if k < |log| {
      assert LinkedAt(h, log, k);
      assert log[..k + 1][..k] == log[..k] && log[..k + 1][k] == log[k];
      assert (log[k..] + [e])[1..] == log[k + 1..] + [e];
      VerifyLinkedThen(h, log, e, k + 1);
    } else {
      assert log[k..] + [e] == [e] && log[..k] == log;
    }
  }

  lemma StampedEntryChecks(h: Suite, c: Config, log: seq<Entry>, s: Chain, e: Entry, tsa: TsaStatus)
    requires h.Valid() && c.Valid() && StandsIn(h, log, s) && NoCollision(h, HashInputs(h, log))
    ensures var x := WithMeta(e, Stamp(h, c, s, e, tsa).0);
            VerifyFrom(h, [x], HashAfter(h, log), |log|) ==
              (if s.index == |log| then Report(true, |log| + 1, None, NoReason)
               else Report(false, |log|, Some(IdOf(e)), PrevHashBroken))
  {
    var x := WithMeta(e, Stamp(h, c, s, e, tsa).0);
    assert PayloadOf(x) == PayloadOf(e) && [x][1..] == [];
    if s.index == |log| {
      assert log[..s.index] == log;
    } else {
      PrefixHashDiffers(h, log, s.index);
    }
    assert Check(h, HashAfter(h, log), x) == if s.index == |log| then NoReason else PrevHashBroken;
  }

  lemma VerifyOneMore(h: Suite, log: seq<Entry>, x: Entry)
    requires Linked(h, log) && Increasing(IdOf, log) && (log != [] ==> IdOf(log[|log| - 1]) < IdOf(x))
    ensures Verify(h, log + [x]) == VerifyFrom(h, [x], HashAfter(h, log), |log|)
  {
    VerifyLinkedThen(h, log, x, 0);
    assert log[0..] == log && log[..0] == [];
    IncreasingLonger(log, x);
    IncreasingIsSorted(log + [x]);
  }

  /** An entry stamped after a restart verifies exactly if the restart saw the last entry;
      if it did not, the chain is reported broken at that very entry. */
  lemma RestartExactly(h: Suite, c: Config, s: Service, entries: seq<Entry>, e: Entry, tsa: TsaStatus)
    requires h.Valid() && c.Valid() && Sound(h, s) && s.log != [] && forall x :: x in entries ==> x in s.log
    requires IdOf(s.log[|s.log| - 1]) < IdOf(e) && NoCollision(h, HashInputs(h, s.log))
    ensures var s' := Handle(h, c, Handle(h, c, s, Restart(entries)), Add(e, tsa));
            Verify(h, s'.log) ==
              (if s.log[|s.log| - 1] in entries then Report(true, |s.log| + 1, None, NoReason)
               else Report(false, |s.log|, Some(IdOf(e)), PrevHashBroken))
  {
    var log, chain := s.log, Restore(Fresh(), entries);
    var x := WithMeta(e, Stamp(h, c, chain, e, tsa).0);
    RestartStands(h, log, entries);
    StampedEntryChecks(h, c, log, chain, e, tsa);
    VerifyOneMore(h, log, x);
    assert Handle(h, c, Handle(h, c, s, Restart(entries)), Add(e, tsa)).log == log + [x];
  }

  // ---------- A break is never mended ----------

  function Continue(h: Suite, c: Config, s: Service, events: seq<Event>): Service
    requires c.Valid()
    decreases |events|
  {
    if events == [] then s else Continue(h, c, Handle(h, c, s, events[0]), events[1..])
  }

  lemma {:induction false} LogGrows(h: Suite, c: Config, s: Service, events: seq<Event>)
    requires c.Valid()
    ensures s.log <= Continue(h, c, s, events).log
    decreases |events|
  {
    if events != [] {
      LogGrows(h, c, Handle(h, c, s, events[0]), events[1..]);
    }
  }

  lemma {:induction false} BreakStays(h: Suite, log: seq<Entry>, more: seq<Entry>, prev: string, n: nat)
    requires !VerifyFrom(h, log, prev, n).ok
    ensures VerifyFrom(h, log + more, prev, n) == VerifyFrom(h, log, prev, n)
    decreases |log|
  {
    assert log != [];
    assert (log + more)[0] == log[0] && (log + more)[1..] == log[1..] + more;
    if Check(h, prev, log[0]) == NoReason {
      BreakStays(h, log[1..], more, h.ChainHash(prev, h.EntryHash(log[0])), n + 1);
    }
  }

  /** Whatever happens after a restart that missed the last entry and a stamp, with ids
      still growing, the whole log reports the break at that stamp. */
  lemma MissedEntryBreaksForEver(h: Suite, c: Config, s: Service, entries: seq<Entry>, e: Entry, tsa: TsaStatus,
                                 events: seq<Event>)
    requires h.Valid() && c.Valid() && Sound(h, s) && s.log != [] && forall x :: x in entries ==> x in s.log
    requires s.log[|s.log| - 1] !in entries
    requires IdOf(s.log[|s.log| - 1]) < IdOf(e) && NoCollision(h, HashInputs(h, s.log))
    requires var s' := Handle(h, c, Handle(h, c, s, Restart(entries)), Add(e, tsa));
             Increasing(IdOf, Continue(h, c, s', events).log)
    ensures var s' := Handle(h, c, Handle(h, c, s, Restart(entries)), Add(e, tsa));
            Verify(h, Continue(h, c, s', events).log) == Report(false, |s.log|, Some(IdOf(e)), PrevHashBroken)
  {
    var s' := Handle(h, c, Handle(h, c, s, Restart(entries)), Add(e, tsa));
    var all := Continue(h, c, s', events).log;
    RestartExactly(h, c, s, entries, e, tsa);
    LogGrows(h, c, s', events);
    VerifyOfLonger(h, s'.log, all);
  }

  lemma IncreasingIsSorted(log: seq<Entry>)
    requires Increasing(IdOf, log)
    ensures SortById(log) == log
  {
    SortKeepsSorted(IdOf, log);
  }

  lemma VerifyOfLonger(h: Suite, log: seq<Entry>, all: seq<Entry>)
    requires log <= all && Increasing(IdOf, all) && !Verify(h, log).ok
    ensures Verify(h, all) == Verify(h, log)
  {
    var more := all[|log|..];
    assert all == log + more;
    IncreasingIsSorted(all);
    assert Increasing(IdOf, log) by {
      assert forall i :: 0 <= i < |log| ==> log[i] == all[i];
    }
    IncreasingIsSorted(log);
    BreakStays(h, log, more, Genesis(), 0);
  }

  // ---------- Tampering ----------

  /** The entries agree in all that is to be protected. */
  predicate SameContent(a: Entry, b: Entry) { a.id == b.id && a.fields == b.fields && RestOf(a) == RestOf(b) }

  function CanonOf(h: Suite, e: Entry): string { h.canon(Payload(e.id, e.fields, RestOf(e))) }

  /** What is hashed of an entry is its id, its fields and its extra without the metadata. */
  lemma HashedContent(h: Suite, e: Entry)
    ensures h.canon(PayloadOf(e)) == CanonOf(h, e) && h.EntryHash(e) == h.sha(CanonOf(h, e))
  {
    assert PayloadOf(e) == Payload(e.id, e.fields, RestOf(e));
  }

  /** On these entries the canonical form tells contents apart. */
  ghost predicate Faithful(h: Suite, entries: set<Entry>) {
    forall a, b :: a in entries && b in entries && CanonOf(h, a) == CanonOf(h, b) ==> SameContent(a, b)
  }

  /** The hash tells the contents of two entries apart. */
  ghost predicate TellsApart(h: Suite, a: Entry, b: Entry) {
    Faithful(h, {a, b}) && NoCollision(h, {CanonOf(h, a), CanonOf(h, b)})
  }

  lemma EntryHashesDiffer(h: Suite, a: Entry, b: Entry)
    requires TellsApart(h, a, b)
    ensures h.EntryHash(a) == h.EntryHash(b) <==> SameContent(a, b)
  {
    if h.EntryHash(a) == h.EntryHash(b) {
      SameInput(h, {CanonOf(h, a), CanonOf(h, b)}, CanonOf(h, a), CanonOf(h, b));
    }
  }

  /** A linked log is verified up to any of its entries. */
  lemma {:induction false} VerifyThrough(h: Suite, log: seq<Entry>, i: nat, more: seq<Entry>, k: nat)
    requires Linked(h, log) && k <= i <= |log|
    ensures VerifyFrom(h, log[k..i] + more, HashAfter(h, log[..k]), k) == VerifyFrom(h, more, HashAfter(h, log[..i]), i)
    decreases i - k
  {
    if k < i {
      assert LinkedAt(h, log, k);
      assert log[..k + 1][..k] == log[..k] && log[..k + 1][k] == log[k];
      assert (log[k..i] + more)[0] == log[k] && (log[k..i] + more)[1..] == log[k + 1..i] + more;
      VerifyThrough(h, log, i, more, k + 1);
    } else {
      assert log[k..i] + more == more;
    }
  }

  /** The verification of a linked log with other entries from i on. */
  lemma VerifyFromEntry(h: Suite, log: seq<Entry>, i: nat, more: seq<Entry>)
    requires Linked(h, log) && i <= |log| && Increasing(IdOf, log[..i] + more)
    ensures Verify(h, log[..i] + more) == VerifyFrom(h, more, HashAfter(h, log[..i]), i)
  {
    IncreasingIsSorted(log[..i] + more);
    VerifyThrough(h, log, i, more, 0);
    assert log[0..i] == log[..i] && log[..0] == [];
  }

  lemma ReplacedAt(log: seq<Entry>, i: nat, e: Entry)
    requires i < |log|
    ensures log[i := e] == log[..i] + ([e] + log[i + 1..])
    ensures ([e] + log[i + 1..])[0] == e && ([e] + log[i + 1..])[1..] == log[i + 1..]
  {
  }

  /** Entry i edited, with the metadata it had: the edit is reported at that entry, unless it
      changed neither the id nor a field nor the rest of the extra. */
  lemma EditedContent(h: Suite, log: seq<Entry>, i: nat, e: Entry)
    requires Linked(h, log) && Increasing(IdOf, log) && i < |log| && LawOf(e) == LawOf(log[i])
    requires Increasing(IdOf, log[i := e]) && TellsApart(h, log[i], e)
    ensures Verify(h, log[i := e])
         == if e.id == log[i].id && e.fields == log[i].fields && RestOf(e) == RestOf(log[i])
            then Report(true, |log|, None, NoReason)
            else Report(false, i, Some(IdOf(e)), EntryHashDiffers)
  {
    var more := [e] + log[i + 1..];
    ReplacedAt(log, i, e);
    EntryHashesDiffer(h, log[i], e);
    VerifyFromEntry(h, log, i, more);
    assert LinkedAt(h, log, i);
    if SameContent(e, log[i]) {
      assert e == log[i] && log[i := e] == log;
      VerifyWhole(h, log);
    }
  }

  lemma VerifyWhole(h: Suite, log: seq<Entry>)
    requires Linked(h, log) && Increasing(IdOf, log)
    ensures Verify(h, log) == Report(true, |log|, None, NoReason)
  {
    IncreasingIsSorted(log);
    VerifyLinked(h, log, 0);
    assert log[0..] == log && log[..0] == [];
  }

  /** The metadata of entry i edited: which hash was touched is what is reported. An index
      that was touched is not noticed. */
  lemma EditedMetadata(h: Suite, log: seq<Entry>, i: nat, law: Option<Meta>)
    requires Linked(h, log) && Increasing(IdOf, log) && i < |log| && LawOf(log[i]).Some?
    ensures var e, was := log[i].(extra := Dict(log[i].extra.rest, law)), LawOf(log[i]).value;
            Verify(h, log[i := e]) ==
              (if law.None? then Report(false, i, Some(IdOf(log[i])), MetaMissing)
               else if law.value.entryHash != was.entryHash then Report(false, i, Some(IdOf(log[i])), EntryHashDiffers)
               else if law.value.prevHash != was.prevHash then Report(false, i, Some(IdOf(log[i])), PrevHashBroken)
               else if law.value.chainHash != was.chainHash then Report(false, i, Some(IdOf(log[i])), ChainHashDiffers)
               else Report(true, |log|, None, NoReason))
  {
    var e := log[i].(extra := Dict(log[i].extra.rest, law));
    ReplacedAt(log, i, e);
    ReplacedIncreasing(log, i, e);
    VerifyFromEntry(h, log, i, [e] + log[i + 1..]);
    VerifyEdited(h, log, i, e);
  }

  lemma ReplacedIncreasing(log: seq<Entry>, i: nat, e: Entry)
    requires Increasing(IdOf, log) && i < |log| && IdOf(e) == IdOf(log[i])
    ensures Increasing(IdOf, log[i := e])
  {
  }

  lemma VerifyEdited(h: Suite, log: seq<Entry>, i: nat, e: Entry)
    requires Linked(h, log) && i < |log| && PayloadOf(e) == PayloadOf(log[i])
    ensures LawOf(log[i]).Some?
    ensures var was, r := LawOf(log[i]).value, VerifyFrom(h, [e] + log[i + 1..], HashAfter(h, log[..i]), i);
            r == (if LawOf(e).None? then Report(false, i, Some(IdOf(e)), MetaMissing)
                  else if LawOf(e).value.entryHash != was.entryHash
                  then Report(false, i, Some(IdOf(e)), EntryHashDiffers)
                  else if LawOf(e).value.prevHash != was.prevHash then Report(false, i, Some(IdOf(e)), PrevHashBroken)
                  else if LawOf(e).value.chainHash != was.chainHash
                  then Report(false, i, Some(IdOf(e)), ChainHashDiffers)
                  else Report(true, |log|, None, NoReason))
  {
    assert LinkedAt(h, log, i);
    assert ([e] + log[i + 1..])[1..] == log[i + 1..];
    assert log[..i + 1][..i] == log[..i] && log[..i + 1][i] == log[i];
    VerifyLinked(h, log, i + 1);
  }

  /** Entry i edited and its hashes made up anew: the next entry gives it away. Only in the
      last entry this goes unnoticed. */
  lemma RestampedEntry(h: Suite, log: seq<Entry>, i: nat, e: Entry)
    requires h.Valid() && Linked(h, log) && Increasing(IdOf, log) && i < |log| && Increasing(IdOf, log[i := e])
    requires Restamped(h, HashAfter(h, log[..i]), log[i], e) && TellsApart(h, log[i], e) && !SameContent(log[i], e)
    ensures Verify(h, log[i := e])
         == if i + 1 < |log| then Report(false, i + 1, Some(IdOf(log[i + 1])), PrevHashBroken)
            else Report(true, |log|, None, NoReason)
  {
    var prev, more := HashAfter(h, log[..i]), [e] + log[i + 1..];
    ReplacedAt(log, i, e);
    VerifyFromEntry(h, log, i, more);
    assert Check(h, prev, e) == NoReason;
    assert VerifyFrom(h, more, prev, i) == VerifyFrom(h, log[i + 1..], h.ChainHash(prev, h.EntryHash(e)), i + 1);
    if i + 1 < |log| {
      EntryHashesDiffer(h, log[i], e);
      ChainHashesDiffer(h, prev, h.EntryHash(e), h.EntryHash(log[i]));
      NextBreaks(h, log, i + 1, h.ChainHash(prev, h.EntryHash(e)));
    }
  }

  /** The metadata of e is made up for it, following prev, and its chain hash is another
      than the one of the entry it replaces. */
  ghost predicate Restamped(h: Suite, prev: string, was: Entry, e: Entry) {
    && LawOf(e).Some? && LawOf(e).value.entryHash == Some(h.EntryHash(e))
    && LawOf(e).value.prevHash == Some(prev)
    && LawOf(e).value.chainHash == Some(h.ChainHash(prev, h.EntryHash(e)))
    && NoCollision(h, {prev + ":" + h.EntryHash(e), prev + ":" + h.EntryHash(was)})
  }

  /** Behind a wrong hash the next entry of a linked log breaks. */
  lemma NextBreaks(h: Suite, log: seq<Entry>, i: nat, hash: string)
    requires Linked(h, log) && 0 < i < |log|
    requires hash != h.ChainHash(HashAfter(h, log[..i - 1]), h.EntryHash(log[i - 1]))
    ensures VerifyFrom(h, log[i..], hash, i) == Report(false, i, Some(IdOf(log[i])), PrevHashBroken)
  {
    assert LinkedAt(h, log, i) && log[i..][0] == log[i];
    assert log[..i][..i - 1] == log[..i - 1] && log[..i][i - 1] == log[i - 1];
    assert Check(h, hash, log[i]) == PrevHashBroken;
  }

  lemma ChainHashesDiffer(h: Suite, prev: string, a: string, b: string)
    requires NoCollision(h, {prev + ":" + a, prev + ":" + b}) && a != b
    ensures h.ChainHash(prev, a) != h.ChainHash(prev, b)
  {
    if h.ChainHash(prev, a) == h.ChainHash(prev, b) {
      SameInput(h, {prev + ":" + a, prev + ":" + b}, prev + ":" + a, prev + ":" + b);
      JoinedHashesSplit(prev, a, prev, b);
    }
  }

  /** Entry i taken out: the next one gives it away. Only the last entries can go unnoticed. */
  lemma RemovedEntry(h: Suite, log: seq<Entry>, i: nat)
    requires h.Valid() && Linked(h, log) && Increasing(IdOf, log) && i < |log| && NoCollision(h, HashInputs(h, log))
    ensures Verify(h, log[..i] + log[i + 1..])
         == if i + 1 < |log| then Report(false, i, Some(IdOf(log[i + 1])), PrevHashBroken)
            else Report(true, |log| - 1, None, NoReason)
  {
    var more := log[i + 1..];
    WithoutIncreasing(log, i);
    VerifyFromEntry(h, log, i, more);
    if i + 1 < |log| {
      SkippedBreaks(h, log, i);
    }
  }

  lemma WithoutIncreasing(log: seq<Entry>, i: nat)
    requires Increasing(IdOf, log) && i < |log|
    ensures Increasing(IdOf, log[..i] + log[i + 1..])
  {
  }

  lemma SkippedBreaks(h: Suite, log: seq<Entry>, i: nat)
    requires h.Valid() && Linked(h, log) && i + 1 < |log| && NoCollision(h, HashInputs(h, log))
    ensures VerifyFrom(h, log[i + 1..], HashAfter(h, log[..i]), i)
         == Report(false, i, Some(IdOf(log[i + 1])), PrevHashBroken)
  {
    assert LinkedAt(h, log, i + 1) && log[i + 1..][0] == log[i + 1];
    PrefixInputs(h, log, i + 1);
    PrefixHashDiffers(h, log[..i + 1], i);
    assert log[..i + 1][..i] == log[..i];
    assert Check(h, HashAfter(h, log[..i]), log[i + 1]) == PrevHashBroken;
  }

  /** Two logs that verify and end in the same chain hash agree in every id, every field and
      all extras, if the canonical form tells their contents apart. */
  lemma VerifiedLogsHaveSameContent(h: Suite, a: seq<Entry>, b: seq<Entry>, k: nat)
    requires h.Valid() && Verify(h, a).ok && Verify(h, b).ok && k < |a|
    requires EndHash(SortById(a)) == EndHash(SortById(b))
    requires NoCollision(h, HashInputs(h, SortById(a)) + HashInputs(h, SortById(b)))
    requires Faithful(h, (set e | e in SortById(a)) + (set e | e in SortById(b)))
    ensures |a| == |b| == |SortById(a)| == |SortById(b)|
    ensures var x, y := SortById(a)[k], SortById(b)[k];
            x.id == y.id && x.fields == y.fields && RestOf(x) == RestOf(y)
  {
    VerifiedLogsAgree(h, a, b);
    SortedSameSize(IdOf, a);
    SortedSameSize(IdOf, b);
    SameCanonSameContent(h, SortById(a), SortById(b), k);
  }

  lemma SameCanonSameContent(h: Suite, x: seq<Entry>, y: seq<Entry>, k: nat)
    requires Canonical(h, x) == Canonical(h, y) && k < |x| == |y|
    requires Faithful(h, (set e | e in x) + (set e | e in y))
    ensures SameContent(x[k], y[k])
  {
    HashedContent(h, x[k]);
    HashedContent(h, y[k]);
    assert h.canon(PayloadOf(x[k])) == Canonical(h, x)[k] == Canonical(h, y)[k] == h.canon(PayloadOf(y[k]));
    assert x[k] in x && y[k] in y;
    assert x[k] in (set e | e in x) && y[k] in (set e | e in y);
  }

  // ---------- Time stamps ----------

  /** A fresh stamper after n entries, all of whose requests for a time stamp succeed. */
  function StampedAll(h: Suite, c: Config, entries: seq<Entry>): Chain
    requires c.Valid()
  {
    if entries == [] then Fresh()
    else
      var n := |entries| - 1;
      Stamp(h, c, StampedAll(h, c, entries[..n]), entries[n], Stamped).1
  }

  lemma TimesAtMost(a: nat, b: nat, k: nat)
    requires a <= b
    ensures a * k <= b * k
  {
  }

  lemma SameQuotient(p: nat, s: nat, q: nat, r: nat, k: nat)
    requires p * k + s == q * k + r && s < k && r < k
    ensures p == q && s == r
  {
    assert (p + 1) * k == p * k + k && (q + 1) * k == q * k + k;
    if p < q {
      TimesAtMost(p + 1, q, k);
    } else if q < p {
      TimesAtMost(q + 1, p, k);
    }
  }

  lemma QuotientIs(a: nat, q: nat, r: nat, k: nat)
    requires a == q * k + r && r < k
    ensures a / k == q && a % k == r
  {
    SameQuotient(a / k, a % k, q, r, k);
  }

  lemma OneMoreMultiple(n: nat, k: nat)
    requires k >= 1
    ensures (n + 1) / k == n / k + if (n + 1) % k == 0 then 1 else 0
  {
    var q, r := n / k, n % k;
    assert n == q * k + r;
    if r + 1 == k {
      assert n + 1 == (q + 1) * k;
      QuotientIs(n + 1, q + 1, 0, k);
    } else {
      QuotientIs(n + 1, q, r + 1, k);
    }
  }

  /** Of n entries every stampEvery-th is time-stamped, if time stamps are on. */
  lemma {:induction false} EveryNthIsStamped(h: Suite, c: Config, entries: seq<Entry>)
    requires c.Valid()
    ensures var s := StampedAll(h, c, entries);
            && s.index == |entries| && s.failed == 0 && s.stamped + s.skipped == |entries|
            && s.stamped == if c.timestamps then |entries| / c.stampEvery else 0
  {
    if entries != [] {
      EveryNthIsStamped(h, c, entries[..|entries| - 1]);
      OneMoreMultiple(|entries| - 1, c.stampEvery);
    }
  }

  /** A restart passes over an entry without a hash of 64 characters or a greater index. */
  lemma UnusableEntryIsPassedOver(s: Chain, e: Entry)
    requires LawOf(e).Some? ==>
               || LawOf(e).value.chainHash.None? || |Strip(LawOf(e).value.chainHash.value)| != 64
               || LawOf(e).value.index.None? || LawOf(e).value.index.value <= s.index
    ensures RestoreOne(s, e) == s
  {
  }

  /** The first entry of a log that verifies follows 64 zeros. */
  lemma FirstEntryFollowsZeros(h: Suite, entries: seq<Entry>)
    requires Verify(h, entries).ok && entries != []
    ensures SortById(entries) != []
    ensures var first := SortById(entries)[0];
            LawOf(first).Some? && LawOf(first).value.prevHash == Some(seq(64, _ => '0'))
  {
    SortedSameSize(IdOf, entries);
    assert Genesis() == seq(64, _ => '0');
  }

  /** An entry with a greater index and a hash of 64 characters is taken as the end of the
      chain, capital letters read as small ones. */
  lemma UsableEntryIsTaken(s: Chain, e: Entry, raw: string, index: nat)
    requires LawOf(e).Some? && LawOf(e).value.chainHash == Some(raw) && LawOf(e).value.index == Some(index)
    requires |raw| == 64 && !IsSpace(raw[0]) && !IsSpace(raw[63]) && index > s.index
    ensures var r := RestoreOne(s, e);
            && r.index == index && r.lastId == (if e.id.Some? then e.id.value else 0) && |r.lastHash| == 64
            && forall i :: 0 <= i < 64 ==>
                 r.lastHash[i] as int == raw[i] as int + if 'A' <= raw[i] <= 'Z' then 32 else 0
  {
    StripTight(raw);
    assert ReadHash(LawOf(e).value) == Lower(raw);
  }
}
