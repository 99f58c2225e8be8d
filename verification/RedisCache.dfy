/** The Redis-backed cache: a circuit breaker in front of the server and an in-memory
    cache behind it for the time the server does not answer. */
module RedisCache {
  import opened Sequences
  import D = DictCache

  const THRESHOLD: nat := 5
  const RESET_SECS: D.Time := 30.0

  // ---------- The server ----------

  /** A server item may have no expiry: incr creates it before expire is called. */
  datatype Item = Item(expire: Option<D.Time>, value: D.Value)

  type Store = map<D.Key, Item>

  predicate Alive(store: Store, k: D.Key, at: D.Time) {
    k in store && (store[k].expire.Some? ==> at <= store[k].expire.value)
  }

  /** What the server does with a command: its answer (TypeError for a command it
      refuses) and its new contents. A setex without a positive ttl is refused. */
  function Serve(store: Store, at: D.Time, op: D.Op): (D.Result, Store) {
    match op
    case Get(k) => (D.Got(if Alive(store, k, at) then store[k].value else D.NoneValue), store)
    case Set(k, v, ttl) =>
      if ttl <= 0 then (D.TypeError, store) else (D.Done, store[k := Item(Some(at + ttl as D.Time), v)])
    case Delete(k) => (D.Done, store - {k})
    case DeletePrefix(p) => (D.Done, store - set k | k in store && p <= k)
    case Incr(k, ttl) =>
      if !Alive(store, k, at) then (D.Got(D.Num(1)), store[k := Item(None, D.Num(1))])
      else
        var r := D.Plus1(store[k].value);
        (r, if r.Got? then store[k := Item(store[k].expire, r.value)] else store)
  }

  /** The expire call that follows an incr answered with 1. */
  function ServeExpire(store: Store, at: D.Time, k: D.Key, ttl: int): Store {
    if k in store then store[k := Item(Some(at + ttl as D.Time), store[k].value)] else store
  }

  // ---------- One call ----------

  /** Answered; not reached; or carried out without the answer coming back. */
  datatype Fate = Answered | Refused | Unanswered

  /** The circumstances of one call: its clock readings before, at and after the server,
      the items the server lost meanwhile (evicted, restarted, half-done deletes), what
      became of the command, and of the expire that may follow an incr. */
  datatype Link = Link(before: D.Time, at: D.Time, after: D.Time, lost: set<D.Key>, fate: Fate, expireFate: Fate)
  {
    predicate Valid() { before <= at <= after }
  }

  datatype State = State(fails: nat, openUntil: D.Time, fallback: D.Store, store: Store)

  predicate CircuitOpen(fails: nat, openUntil: D.Time, now: D.Time) {
    fails >= THRESHOLD && !(now > openUntil)
  }

  function Succeeded(s: State): State { s.(fails := 0) }

  function Failed(s: State, now: D.Time): State {
    if s.fails + 1 >= THRESHOLD then s.(fails := s.fails + 1, openUntil := now + RESET_SECS)
    else s.(fails := s.fails + 1)
  }

  /** The exchange with the server: Some answer, or None for an exception. */
  function Exchange(store: Store, op: D.Op, link: Link): (Option<D.Result>, Store) {
    var left := store - link.lost;
    if link.fate.Refused? then (None, left)
    else
      var (r, after) := Serve(left, link.at, op);
      if link.fate.Unanswered? || r.TypeError? then (None, after)
      else if op.Incr? && r == D.Got(D.Num(1)) then
        match link.expireFate
        case Answered => (Some(r), ServeExpire(after, link.at, op.key, op.ttl))
        case Refused => (None, after)
        case Unanswered => (None, ServeExpire(after, link.at, op.key, op.ttl))
      else (Some(r), after)
  }

  /** The fallback is written on every write and read when the server gives no answer. */
  predicate WritesFirst(op: D.Op) { op.Set? || op.Delete? || op.DeletePrefix? }

  function Call(s: State, op: D.Op, link: Link): (D.Result, State) {
    var s1 := if WritesFirst(op) then s.(fallback := D.Step(s.fallback, link.before, op).1) else s;
    if CircuitOpen(s.fails, s.openUntil, link.before) then
      FromFallback(s1, op, link.before)
    else
      var (answer, store) := Exchange(s1.store, op, link);
      var s2 := s1.(store := store);
      if answer.Some? then (if WritesFirst(op) then D.Done else answer.value, Succeeded(s2))
      else FromFallback(Failed(s2, link.after), op, link.after)
  }

  function FromFallback(s: State, op: D.Op, now: D.Time): (D.Result, State) {
    if WritesFirst(op) then (D.Done, s)
    else
      var (r, fallback) := D.Step(s.fallback, now, op);
      (r, s.(fallback := fallback))
  }

  // ---------- The classes ----------

  class Server {
    var store: Store

    constructor (store: Store)
      ensures this.store == store
    {
      this.store := store;
    }

    method Send(op: D.Op, link: Link) returns (answer: Option<D.Result>)
      modifies this
      ensures (answer, store) == Exchange(old(store), op, link)
    {
      var (a, s) := Exchange(store, op, link);
      answer, store := a, s;
    }
  }

  class Cache {
    const server: Server
    const fallback: D.Cache
    var failCount: nat
    var circuitOpenUntil: D.Time

    function Abstract(): State
      reads this, server, fallback
    {
      State(failCount, circuitOpenUntil, fallback.data, server.store)
    }

    /** A ping that fails at the start counts as a full run of failures. */
    constructor (server: Server, defaultTtl: int, pingOk: bool)
      ensures Abstract() == State(if pingOk then 0 else THRESHOLD, 0.0, map[], server.store)
      ensures this.server == server && fresh(fallback) && fallback.defaultTtl == defaultTtl
    {
      this.server := server;
      fallback := new D.Cache(defaultTtl);
      failCount := if pingOk then 0 else THRESHOLD;
      circuitOpenUntil := 0.0;
    }

    predicate IsCircuitOpen(now: D.Time)
      reads this
    {
      CircuitOpen(failCount, circuitOpenUntil, now)
    }

    method RecordSuccess()
      modifies this
      ensures failCount == 0 && circuitOpenUntil == old(circuitOpenUntil)
    {
      if failCount > 0 {
        failCount := 0;
      }
    }

    method RecordFailure(now: D.Time)
      modifies this
      ensures Abstract() == Failed(old(Abstract()), now)
    {
      failCount := failCount + 1;
      if failCount >= THRESHOLD {
        circuitOpenUntil := now + RESET_SECS;
      }
    }

    method Get(key: D.Key, link: Link) returns (value: D.Value)
      modifies this, server, fallback
      ensures (D.Got(value), Abstract()) == Call(old(Abstract()), D.Get(key), link)
    {
      if IsCircuitOpen(link.before) {
        value := fallback.Lookup(key, link.before);
        return;
      }
      var answer := server.Send(D.Get(key), link);
      if answer.Some? {
        RecordSuccess();
        value := answer.value.value;
      } else {
        RecordFailure(link.after);
        value := fallback.Lookup(key, link.after);
      }
    }

    method Put(key: D.Key, value: D.Value, ttl: Option<int>, link: Link)
      modifies this, server, fallback
      ensures Abstract() == Call(old(Abstract()), D.Set(key, value, fallback.TtlOr(ttl)), link).1
    {
      var t := fallback.TtlOr(ttl);
      fallback.Put(key, value, ttl, link.before);
      if IsCircuitOpen(link.before) {
        return;
      }
      var answer := server.Send(D.Set(key, value, t), link);
      if answer.Some? {
        RecordSuccess();
      } else {
        RecordFailure(link.after);
      }
    }

    method Remove(key: D.Key, link: Link)
      modifies this, server, fallback
      ensures Abstract() == Call(old(Abstract()), D.Delete(key), link).1
    {
      fallback.Remove(key);
      assert fallback.data == D.Step(old(fallback.data), link.before, D.Delete(key)).1;
      if IsCircuitOpen(link.before) {
        return;
      }
      var answer := server.Send(D.Delete(key), link);
      if answer.Some? {
        RecordSuccess();
      } else {
        RecordFailure(link.after);
      }
    }

    method RemovePrefix(prefix: string, link: Link)
      modifies this, server, fallback
      ensures Abstract() == Call(old(Abstract()), D.DeletePrefix(prefix), link).1
    {
      fallback.RemovePrefix(prefix);
      assert fallback.data == D.Step(old(fallback.data), link.before, D.DeletePrefix(prefix)).1;
      if IsCircuitOpen(link.before) {
        return;
      }
      var answer := server.Send(D.DeletePrefix(prefix), link);
      if answer.Some? {
        RecordSuccess();
      } else {
        RecordFailure(link.after);
      }
    }

    /** Clearing is deleting the empty prefix, first in the fallback and then everywhere. */
    method Clear(link: Link)
      modifies this, server, fallback
      ensures Abstract() == Call(old(Abstract()), D.DeletePrefix(""), link).1
      ensures fallback.data == map[]
    {
      fallback.Clear();
      assert D.Step(old(fallback.data), link.before, D.DeletePrefix("")).1 == map[];
      if !IsCircuitOpen(link.before) {
        RemovePrefix("", link);
      }
    }

    method Increment(key: D.Key, ttl: Option<int>, link: Link) returns (r: D.Result)
      modifies this, server, fallback
      ensures (r, Abstract()) == Call(old(Abstract()), D.Incr(key, fallback.TtlOr(ttl)), link)
    {
      if IsCircuitOpen(link.before) {
        r := fallback.Increment(key, ttl, link.before);
        return;
      }
      var answer := server.Send(D.Incr(key, fallback.TtlOr(ttl)), link);
      if answer.Some? {
        RecordSuccess();
        r := answer.value;
      } else {
        RecordFailure(link.after);
        r := fallback.Increment(key, ttl, link.after);
      }
    }
  }

  // ---------- Staleness ----------

  datatype Event = Event(op: D.Op, link: Link)

  ghost predicate Ordered(run: seq<Event>) {
    && (forall i :: 0 <= i < |run| ==> run[i].link.Valid())
    && (forall i, j :: 0 <= i < j < |run| ==> run[i].link.after <= run[j].link.before)
  }

  function StateAfter(s: State, run: seq<Event>): State
    decreases |run|
  {
    if run == [] then s
    else Call(StateAfter(s, run[..|run| - 1]), run[|run| - 1].op, run[|run| - 1].link).1
  }

  /** Event e set k to v at time s. */
  ghost predicate SetAt(e: Event, k: D.Key, v: D.Value, s: D.Time) {
    && e.op.Set? && e.op.key == k && e.op.value == v
    && e.link.before <= s <= e.link.after
  }

  /** Some set of the run gave k this value and this expiry. */
  ghost predicate Justified(run: seq<Event>, k: D.Key, v: D.Value, expire: D.Time) {
    exists i, s :: 0 <= i < |run| && SetAt(run[i], k, v, s) && expire == s + run[i].op.ttl as D.Time
  }

  lemma JustifiedLater(run: seq<Event>, e: Event, k: D.Key, v: D.Value, expire: D.Time)
    requires Justified(run, k, v, expire)
    ensures Justified(run + [e], k, v, expire)
  {
    var i, s :| 0 <= i < |run| && SetAt(run[i], k, v, s) && expire == s + run[i].op.ttl as D.Time;
    assert (run + [e])[i] == run[i];
  }

  lemma JustifiedNow(run: seq<Event>, e: Event, k: D.Key, v: D.Value, s: D.Time)
    requires SetAt(e, k, v, s)
    ensures Justified(run + [e], k, v, s + e.op.ttl as D.Time)
  {
    assert (run + [e])[|run|] == e;
  }

  /** Whatever is stored for k, here or on the server, was set by the run. */
  ghost predicate AllJustified(s: State, run: seq<Event>, k: D.Key) {
    && (k in s.fallback ==> Justified(run, k, s.fallback[k].value, s.fallback[k].expire))
    && (k in s.store ==> s.store[k].expire.Some? && Justified(run, k, s.store[k].value, s.store[k].expire.value))
  }

  /** The server holds for k what it held before, or what this very call set. */
  lemma ExchangeOrigin(store: Store, op: D.Op, link: Link, k: D.Key)
    requires op.Incr? ==> op.key != k
    ensures var store' := Exchange(store, op, link).1;
            k in store' ==> || (k in store && store'[k] == store[k])
                            || (op.Set? && op.key == k && store'[k] == Item(Some(link.at + op.ttl as D.Time), op.value))
  {
  }

  lemma FallbackOrigin(s: State, op: D.Op, link: Link, k: D.Key)
    requires op.Incr? ==> op.key != k
    ensures var f := Call(s, op, link).1.fallback;
            k in f ==> || (k in s.fallback && f[k] == s.fallback[k])
                       || (op.Set? && op.key == k && f[k] == D.Item(link.before + op.ttl as D.Time, op.value))
  {
  }

  lemma StoreOrigin(s: State, op: D.Op, link: Link)
    ensures Call(s, op, link).1.store in {s.store, Exchange(s.store, op, link).1}
  {
  }

  lemma CallKeepsJustified(s: State, run: seq<Event>, e: Event, k: D.Key)
    requires AllJustified(s, run, k) && e.link.Valid()
    requires e.op.Incr? ==> e.op.key != k
    ensures AllJustified(Call(s, e.op, e.link).1, run + [e], k)
  {
    FallbackOrigin(s, e.op, e.link, k);
    ExchangeOrigin(s.store, e.op, e.link, k);
    StoreOrigin(s, e.op, e.link);
    if k in s.fallback {
      JustifiedLater(run, e, k, s.fallback[k].value, s.fallback[k].expire);
    }
    if k in s.store {
      JustifiedLater(run, e, k, s.store[k].value, s.store[k].expire.value);
    }
    if e.op.Set? && e.op.key == k {
      JustifiedNow(run, e, k, e.op.value, e.link.before);
      JustifiedNow(run, e, k, e.op.value, e.link.at);
    }
  }

  lemma {:induction false} RunKeepsJustified(s: State, run: seq<Event>, k: D.Key)
    requires k !in s.fallback && k !in s.store && Ordered(run)
    requires forall e :: e in run && e.op.Incr? ==> e.op.key != k
    ensures AllJustified(StateAfter(s, run), run, k)
    decreases |run|
  {
    if run != [] {
      var front, e := run[..|run| - 1], run[|run| - 1];
      assert run == front + [e] && e in run;
      RunKeepsJustified(s, front, k);
      CallKeepsJustified(StateAfter(s, front), front, e, k);
    }
  }

  ghost predicate During(link: Link, t: D.Time) { link.before <= t <= link.after }

  /** Some set of the run gave k the value v no more than its ttl before the call e. */
  ghost predicate FreshAt(run: seq<Event>, k: D.Key, v: D.Value, link: Link) {
    exists i, w, t ::
      0 <= i < |run| && SetAt(run[i], k, v, w) && During(link, t) && w <= t <= w + run[i].op.ttl as D.Time
  }

  lemma OrderedPrefix(run: seq<Event>, e: Event)
    requires Ordered(run + [e])
    ensures Ordered(run) && e.link.Valid()
    ensures forall i :: 0 <= i < |run| ==> run[i].link.after <= e.link.before
  {
    var all := run + [e];
    assert all[|run|] == e && forall i :: 0 <= i < |run| ==> all[i] == run[i];
  }

  /** Whatever the server, the network and the circuit breaker did, a value that get
      returns was set for that key, at a time no more than its ttl before the answer. */
  lemma AnswersAreNeverOlderThanTheirTtl(s: State, run: seq<Event>, e: Event, k: D.Key)
    requires k !in s.fallback && k !in s.store && Ordered(run + [e]) && e.op == D.Get(k)
    requires forall x :: x in run && x.op.Incr? ==> x.op.key != k
    ensures var r := Call(StateAfter(s, run), e.op, e.link).0;
            r.Got? && (r.value != D.NoneValue ==> FreshAt(run, k, r.value, e.link))
  {
    OrderedPrefix(run, e);
    RunKeepsJustified(s, run, k);
    AnswerJustified(StateAfter(s, run), run, e, k);
  }

  lemma AnswerJustified(s: State, run: seq<Event>, e: Event, k: D.Key)
    requires AllJustified(s, run, k) && e.link.Valid() && e.op == D.Get(k)
    requires forall i :: 0 <= i < |run| ==> run[i].link.after <= e.link.before
    ensures var r := Call(s, e.op, e.link).0;
            r.Got? && (r.value != D.NoneValue ==> FreshAt(run, k, r.value, e.link))
  {
    var r := Call(s, e.op, e.link).0;
    if r.value != D.NoneValue {
      var open := CircuitOpen(s.fails, s.openUntil, e.link.before);
      var answered := !open && Exchange(s.store, e.op, e.link).0.Some?;
      var t := if open then e.link.before else if answered then e.link.at else e.link.after;
      var expire := if answered then s.store[k].expire.value else s.fallback[k].expire;
      assert t <= expire && Justified(run, k, r.value, expire);
      var i, w :| 0 <= i < |run| && SetAt(run[i], k, r.value, w) && expire == w + run[i].op.ttl as D.Time;
      assert During(e.link, t) && w <= t;
    }
  }

  // ---------- The circuit breaker ----------

  /** The server is asked exactly when the circuit is not open. */
  predicate Attempted(s: State, e: Event) { !CircuitOpen(s.fails, s.openUntil, e.link.before) }

  /** While the circuit is open the server is not touched and the breaker does not move. */
  lemma OpenCircuitIsSilent(s: State, e: Event)
    requires !Attempted(s, e)
    ensures var s' := Call(s, e.op, e.link).1;
            s'.store == s.store && s'.fails == s.fails && s'.openUntil == s.openUntil
  {
  }

  /** Until 30 seconds after the failure that opened the circuit, no call of a run reaches
      the server, and the breaker stands still. */
  lemma {:induction false} OpenStretchIsSilent(s: State, run: seq<Event>)
    requires s.fails >= THRESHOLD && forall i :: 0 <= i < |run| ==> run[i].link.before <= s.openUntil
    ensures var s' := StateAfter(s, run);
            s'.store == s.store && s'.fails == s.fails && s'.openUntil == s.openUntil
    decreases |run|
  {
    if run != [] {
      var n := |run| - 1;
      OpenStretchIsSilent(s, run[..n]);
      OpenCircuitIsSilent(StateAfter(s, run[..n]), run[n]);
    }
  }

  predicate AttemptFails(s: State, e: Event) {
    var s1 := if WritesFirst(e.op) then s.(fallback := D.Step(s.fallback, e.link.before, e.op).1) else s;
    Exchange(s1.store, e.op, e.link).0.None?
  }

  /** Every attempt of the run fails. */
  predicate AllFail(s: State, run: seq<Event>)
    decreases |run|
  {
    run == [] ||
    ((Attempted(s, run[0]) ==> AttemptFails(s, run[0])) && AllFail(Call(s, run[0].op, run[0].link).1, run[1..]))
  }

  /** The clock readings of the attempts of a run. */
  function Attempts(s: State, run: seq<Event>): seq<Link>
    decreases |run|
  {
    if run == [] then []
    else (if Attempted(s, run[0]) then [run[0].link] else [])
         + Attempts(Call(s, run[0].op, run[0].link).1, run[1..])
  }

  /** In a stretch of failing attempts, an attempt that brings the count to the threshold
      or beyond is followed by no other within 30 seconds of its end. */
  lemma {:induction false} FailingAttemptsAreSpaced(s: State, run: seq<Event>)
    requires Ordered(run) && AllFail(s, run)
    ensures var a := Attempts(s, run);
            && (s.fails >= THRESHOLD && a != [] ==> a[0].before > s.openUntil)
            && forall i :: 0 <= i < |a| - 1 && s.fails + i + 1 >= THRESHOLD ==>
                 a[i + 1].before > a[i].after + RESET_SECS
    decreases |run|
  {
    if run != [] {
      var e, rest := run[0], run[1..];
      var next := Call(s, e.op, e.link).1;
      assert Ordered(rest) by {
        assert forall i :: 0 <= i < |rest| ==> rest[i] == run[i + 1];
      }
      FailingAttemptsAreSpaced(next, rest);
      if Attempted(s, e) {
        FailedAttempt(s, e);
        var a, b := Attempts(s, run), Attempts(next, rest);
        assert a == [e.link] + b;
        forall i | 0 <= i < |a| - 1 && s.fails + i + 1 >= THRESHOLD ensures a[i + 1].before > a[i].after + RESET_SECS {
          if i > 0 {
            assert a[i] == b[i - 1] && a[i + 1] == b[i];
          }
        }
      } else {
        OpenCircuitIsSilent(s, e);
      }
    }
  }

  lemma FailedAttempt(s: State, e: Event)
    requires Attempted(s, e) && AttemptFails(s, e)
    ensures var s' := Call(s, e.op, e.link).1;
            && s'.fails == s.fails + 1
            && (s'.fails >= THRESHOLD ==> s'.openUntil == e.link.after + RESET_SECS)
  {
  }

  lemma {:induction false} SpacedAttempts(a: seq<Link>, n: nat)
    requires THRESHOLD <= n <= |a|
    requires forall i :: 0 <= i < |a| ==> a[i].Valid()
    requires forall i :: 0 <= i < |a| - 1 && i + 1 >= THRESHOLD ==> a[i + 1].before > a[i].after + RESET_SECS
    ensures RESET_SECS * (n - THRESHOLD) as D.Time <= a[n - 1].before - a[THRESHOLD - 1].before
    decreases n
  {
    if n > THRESHOLD {
      SpacedAttempts(a, n - 1);
      assert a[n - 2].Valid() && a[n - 2 + 1].before > a[n - 2].after + RESET_SECS;
    }
  }

  lemma {:induction false} AttemptsAreValid(s: State, run: seq<Event>)
    requires Ordered(run)
    ensures forall i :: 0 <= i < |Attempts(s, run)| ==> Attempts(s, run)[i].Valid()
    decreases |run|
  {
    if run != [] {
      assert Ordered(run[1..]) by {
        assert forall i :: 0 <= i < |run[1..]| ==> run[1..][i] == run[i + 1];
      }
      AttemptsAreValid(Call(s, run[0].op, run[0].link).1, run[1..]);
    }
  }

  /** In any stretch of failing attempts, n attempts take at least 30 * (n - 5) seconds from
      the fifth on: a dead server is asked at most about twice a minute. */
  lemma DeadServerIsSeldomAsked(s: State, run: seq<Event>, n: nat)
    requires Ordered(run) && AllFail(s, run)
    requires THRESHOLD <= n <= |Attempts(s, run)|
    ensures var a := Attempts(s, run);
            RESET_SECS * (n - THRESHOLD) as D.Time <= a[n - 1].before - a[THRESHOLD - 1].before
  {
    FailingAttemptsAreSpaced(s, run);
    AttemptsAreValid(s, run);
    SpacedAttempts(Attempts(s, run), n);
  }

  // ---------- The cache without the server ----------

  /** The answers of a run. */
  function Answers(s: State, run: seq<Event>): seq<D.Result>
    decreases |run|
  {
    if run == [] then []
    else
      var (r, next) := Call(s, run[0].op, run[0].link);
      [r] + Answers(next, run[1..])
  }

  /** The reading that counts for a call the server does not answer: the first, unless the
      server was asked in vain for what the fallback then answers. */
  function FallbackTime(s: State, e: Event): D.Time {
    if WritesFirst(e.op) || !Attempted(s, e) then e.link.before else e.link.after
  }

  function FallbackRun(s: State, run: seq<Event>): seq<D.Timed>
    decreases |run|
  {
    if run == [] then []
    else [D.Timed(FallbackTime(s, run[0]), run[0].op)] + FallbackRun(Call(s, run[0].op, run[0].link).1, run[1..])
  }

  lemma UnansweredCall(s: State, e: Event)
    requires e.link.Valid() && !e.link.fate.Answered?
    ensures var (r, next) := Call(s, e.op, e.link);
            (r, next.fallback) == D.Step(s.fallback, FallbackTime(s, e), e.op)
  {
  }

  lemma {:induction false} FallbackAnswersLazily(s: State, run: seq<Event>)
    requires Ordered(run) && forall i :: 0 <= i < |run| ==> !run[i].link.fate.Answered?
    ensures Answers(s, run) == D.Results(s.fallback, FallbackRun(s, run))
    ensures D.Nondecreasing(FallbackRun(s, run))
    ensures forall i :: 0 <= i < |FallbackRun(s, run)| ==> run[0].link.before <= FallbackRun(s, run)[i].now
    decreases |run|
  {
    if run != [] {
      var e, rest := run[0], run[1..];
      var next := Call(s, e.op, e.link).1;
      assert e.link.Valid();
      OrderedTail(run);
      UnansweredCall(s, e);
      FallbackAnswersLazily(next, rest);
      var more := FallbackRun(next, rest);
      var all := [D.Timed(FallbackTime(s, e), e.op)] + more;
      assert all[1..] == more;
      assert forall i :: 0 <= i < |more| ==> more[i] == all[i + 1];
      forall i | 0 <= i < |more| ensures FallbackTime(s, e) <= more[i].now {
        assert rest != [] && e.link.after <= rest[0].link.before;
      }
    }
  }

  lemma OrderedTail(run: seq<Event>)
    requires Ordered(run) && run != []
    ensures Ordered(run[1..])
    ensures |run| > 1 ==> run[0].link.after <= run[1..][0].link.before
  {
    assert forall i :: 0 <= i < |run[1..]| ==> run[1..][i] == run[i + 1];
  }

  /** As long as the server answers nothing, whatever it carries out, the answers are those of
      an eagerly expiring map that starts with what the fallback holds. */
  lemma WithoutServerAsEagerMap(s: State, run: seq<Event>)
    requires Ordered(run) && forall i :: 0 <= i < |run| ==> !run[i].link.fate.Answered?
    ensures Answers(s, run) == D.EagerResults(s.fallback, FallbackRun(s, run))
  {
    FallbackAnswersLazily(s, run);
    var times := FallbackRun(s, run);
    D.LazyIsEager(s.fallback, s.fallback, if times == [] then 0.0 else times[0].now, times);
  }

  // ---------- The cache with the server ----------

  function ServerRun(run: seq<Event>): seq<D.Timed> {
    if run == [] then [] else [D.Timed(run[0].link.at, run[0].op)] + ServerRun(run[1..])
  }

  /** The server's items as those of an in-memory cache. */
  function AsDict(store: Store): D.Store {
    map k | k in store && store[k].expire.Some? :: D.Item(store[k].expire.value, store[k].value)
  }

  predicate Counting(v: D.Value) { v.Num? && v.n >= 1 }

  /** All items have an expiry, and those under the keys of counters are positive numbers. */
  predicate Tidy(store: Store, counters: set<D.Key>) {
    forall k :: k in store ==> store[k].expire.Some? && (k in counters ==> Counting(store[k].value))
  }

  /** Every call is answered, nothing is lost, ttls are positive, and values set under the
      keys of counters are positive numbers. */
  predicate Served(e: Event, counters: set<D.Key>) {
    && e.link.fate.Answered? && e.link.expireFate.Answered? && e.link.lost == {}
    && (e.op.Set? ==> e.op.ttl > 0 && (e.op.key in counters ==> Counting(e.op.value)))
    && (e.op.Incr? ==> e.op.key in counters)
  }

  /** What the server answers and then holds is what an eager map does. */
  ghost predicate AgreesWithDict(s: State, e: Event, counters: set<D.Key>) {
    var (r, next) := Call(s, e.op, e.link);
    && next.fails == 0 && Tidy(next.store, counters)
    && r == D.EagerStep(AsDict(s.store), e.link.at, e.op).0
    && D.Live(AsDict(next.store), e.link.at) == D.Live(D.EagerStep(AsDict(s.store), e.link.at, e.op).1, e.link.at)
  }

  lemma ServedGet(s: State, e: Event, counters: set<D.Key>)
    requires s.fails == 0 && e.link.Valid() && Served(e, counters) && Tidy(s.store, counters) && e.op.Get?
    ensures AgreesWithDict(s, e, counters)
  {
    assert s.store - e.link.lost == s.store;
    D.LiveAgain(AsDict(s.store), e.link.at, e.link.at);
    assert Alive(s.store, e.op.key, e.link.at) <==> e.op.key in D.Live(AsDict(s.store), e.link.at);
  }

  lemma ServedSet(s: State, e: Event, counters: set<D.Key>)
    requires s.fails == 0 && e.link.Valid() && Served(e, counters) && Tidy(s.store, counters) && e.op.Set?
    ensures AgreesWithDict(s, e, counters)
  {
    var dict, item := AsDict(s.store), D.Item(e.link.at + e.op.ttl as D.Time, e.op.value);
    assert s.store - e.link.lost == s.store;
    DictWith(s.store, e.op.key, Item(Some(item.expire), item.value));
    D.SetOfLive(dict, e.link.at, e.op.key, item);
  }

  lemma ServedDelete(s: State, e: Event, counters: set<D.Key>)
    requires s.fails == 0 && e.link.Valid() && Served(e, counters) && Tidy(s.store, counters)
    requires e.op.Delete? || e.op.DeletePrefix?
    ensures AgreesWithDict(s, e, counters)
  {
    var dict := AsDict(s.store);
    assert s.store - e.link.lost == s.store;
    var gone := if e.op.Delete? then {e.op.key} else set k | k in s.store && e.op.prefix <= k;
    var live := if e.op.Delete? then {e.op.key} else set k | k in D.Live(dict, e.link.at) && e.op.prefix <= k;
    assert AsDict(s.store - gone) == dict - gone;
    D.DeletedOfLive(dict, e.link.at, gone, live);
  }

  lemma ServedCall(s: State, e: Event, counters: set<D.Key>)
    requires s.fails == 0 && e.link.Valid() && Served(e, counters) && Tidy(s.store, counters)
    ensures AgreesWithDict(s, e, counters)
  {
    match e.op
    case Get(_) => ServedGet(s, e, counters);
    case Set(_, _, _) => ServedSet(s, e, counters);
    case Delete(_) => ServedDelete(s, e, counters);
    case DeletePrefix(_) => ServedDelete(s, e, counters);
    case Incr(_, _) => ServedIncr(s, e, counters);
  }

  function Incremented(store: Store, k: D.Key, at: D.Time, ttl: int): Item
    requires k in store ==> store[k].value.Num?
  {
    if Alive(store, k, at) then Item(store[k].expire, D.Num(store[k].value.n + 1))
    else Item(Some(at + ttl as D.Time), D.Num(1))
  }

  lemma ServedIncr(s: State, e: Event, counters: set<D.Key>)
    requires s.fails == 0 && e.link.Valid() && Served(e, counters) && Tidy(s.store, counters) && e.op.Incr?
    ensures AgreesWithDict(s, e, counters)
  {
    IncrStores(s, e, counters);
    IncrementedAgrees(s.store, e.op.key, e.link.at, e.op.ttl, counters);
  }

  lemma IncrementedAgrees(store: Store, k: D.Key, at: D.Time, ttl: int, counters: set<D.Key>)
    requires Tidy(store, counters) && k in counters
    ensures k in store ==> store[k].value.Num?
    ensures var item, eager := Incremented(store, k, at, ttl), D.EagerStep(AsDict(store), at, D.Incr(k, ttl));
            && Tidy(store[k := item], counters) && eager.0 == D.Got(item.value)
            && D.Live(AsDict(store[k := item]), at) == D.Live(eager.1, at)
  {
    var dict := AsDict(store);
    assert k in store ==> store[k].expire.Some? && Counting(store[k].value);
    var item := Incremented(store, k, at, ttl);
    assert Alive(store, k, at) <==> k in D.Live(dict, at);
    DictWith(store, k, item);
    D.SetOfLive(dict, at, k, D.Item(item.expire.value, item.value));
  }

  lemma DictWith(store: Store, k: D.Key, item: Item)
    requires item.expire.Some?
    ensures AsDict(store[k := item]) == AsDict(store)[k := D.Item(item.expire.value, item.value)]
  {
  }

  lemma IncrStores(s: State, e: Event, counters: set<D.Key>)
    requires s.fails == 0 && e.link.Valid() && Served(e, counters) && Tidy(s.store, counters) && e.op.Incr?
    ensures e.op.key in s.store ==> s.store[e.op.key].value.Num?
    ensures var (r, next) := Call(s, e.op, e.link);
            var item := Incremented(s.store, e.op.key, e.link.at, e.op.ttl);
            next.fails == 0 && next.store == s.store[e.op.key := item] && r == D.Got(item.value)
  {
    assert s.store - e.link.lost == s.store;
    assert e.op.key in s.store ==> Counting(s.store[e.op.key].value);
  }

  lemma {:induction false} ServedRun(s: State, eager: D.Store, t: D.Time, run: seq<Event>, counters: set<D.Key>)
    requires s.fails == 0 && Tidy(s.store, counters) && D.Live(AsDict(s.store), t) == D.Live(eager, t)
    requires Ordered(run) && (run != [] ==> t <= run[0].link.before)
    requires forall i :: 0 <= i < |run| ==> Served(run[i], counters)
    ensures Answers(s, run) == D.EagerResults(eager, ServerRun(run))
    decreases |run|
  {
    if run != [] {
      var e, rest, at := run[0], run[1..], run[0].link.at;
      assert e.link.Valid() && Served(e, counters);
      ServedCall(s, e, counters);
      D.LiveAgain(AsDict(s.store), t, at);
      D.LiveAgain(eager, t, at);
      EagerStepOfLive(AsDict(s.store), eager, at, e.op);
      OrderedTail(run);
      assert forall i :: 0 <= i < |rest| ==> rest[i] == run[i + 1];
      ServedRun(Call(s, e.op, e.link).1, D.EagerStep(eager, at, e.op).1, at, rest, counters);
      var times := ServerRun(rest);
      assert ([D.Timed(at, e.op)] + times)[1..] == times;
    }
  }

  lemma EagerStepOfLive(a: D.Store, b: D.Store, now: D.Time, op: D.Op)
    requires D.Live(a, now) == D.Live(b, now)
    ensures D.EagerStep(a, now, op) == D.EagerStep(b, now, op)
  {
  }

  /** As long as the server answers everything and loses nothing, the answers are those of one
      eagerly expiring map, empty at first, at the times the server carries the calls out. */
  lemma WithServerAsEagerMap(s: State, run: seq<Event>, counters: set<D.Key>)
    requires s.fails == 0 && s.store == map[] && Ordered(run)
    requires forall i :: 0 <= i < |run| ==> Served(run[i], counters)
    ensures Answers(s, run) == D.EagerResults(map[], ServerRun(run))
  {
    ServedRun(s, map[], if run == [] then 0.0 else run[0].link.before, run, counters);
  }

  /** A counter that was set to 0 parts the two: when the server counts it to 1, its ttl
      begins anew, while the in-memory cache keeps the one it had. */
  lemma CounterFromZeroRestarts(s: State, k: D.Key, ttl: int, link: Link)
    requires s.fails == 0 && link.fate.Answered? && link.expireFate.Answered? && link.lost == {}
    requires Alive(s.store, k, link.at) && s.store[k].value == D.Num(0) && s.store[k].expire.Some?
    ensures Call(s, D.Incr(k, ttl), link).1.store[k] == Item(Some(link.at + ttl as D.Time), D.Num(1))
    ensures D.EagerStep(AsDict(s.store), link.at, D.Incr(k, ttl)).1[k] == D.Item(s.store[k].expire.value, D.Num(1))
  {
    assert s.store - link.lost == s.store;
  }

  // ---------- The fallback, whatever the server did before ----------

  function Firsts(run: seq<Event>): seq<D.Timed> {
    seq(|run|, i requires 0 <= i < |run| => D.Timed(run[i].link.before, run[i].op))
  }

  /** Every write reaches the fallback; another call is answered by it or leaves it alone. */
  lemma FallbackStep(s: State, e: Event)
    ensures var f := Call(s, e.op, e.link).1.fallback;
            if WritesFirst(e.op) then f == D.Step(s.fallback, e.link.before, e.op).1
            else || f == s.fallback
                 || f == D.Step(s.fallback, e.link.before, e.op).1
                 || f == D.Step(s.fallback, e.link.after, e.op).1
  {
  }

  lemma FallbackHolds(s: State, e: Event, m: Option<D.Item>, k: D.Key)
    requires e.link.Valid() && !(e.op.Incr? && e.op.key == k) && D.Holds(s.fallback, k, m, e.link.before)
    ensures D.Holds(Call(s, e.op, e.link).1.fallback, k, D.Next(m, D.Timed(e.link.before, e.op), k), e.link.after)
  {
    var f, first, last := Call(s, e.op, e.link).1.fallback, D.Timed(e.link.before, e.op), D.Timed(e.link.after, e.op);
    FallbackStep(s, e);
    D.HoldsLater(s.fallback, k, m, first.now, last.now);
    D.StepHolds(s.fallback, k, m, first);
    D.StepHolds(s.fallback, k, m, last);
    assert !WritesFirst(e.op) ==> D.Next(m, first, k) == m && D.Next(m, last, k) == m;
    if f == D.Step(s.fallback, first.now, e.op).1 {
      D.HoldsLater(f, k, D.Next(m, first, k), first.now, last.now);
    }
  }

  lemma {:induction false} FallbackRemembers(s: State, run: seq<Event>, k: D.Key, now: D.Time)
    requires k !in s.fallback && Ordered(run) && (run != [] ==> run[|run| - 1].link.after <= now)
    requires forall i :: 0 <= i < |run| ==> !(run[i].op.Incr? && run[i].op.key == k)
    ensures D.Holds(StateAfter(s, run).fallback, k, D.Remembered(Firsts(run), k), now)
    decreases |run|
  {
    if run != [] {
      var front, e := run[..|run| - 1], run[|run| - 1];
      assert run == front + [e] && !(e.op.Incr? && e.op.key == k);
      OrderedPrefix(front, e);
      FallbackRemembers(s, front, k, e.link.before);
      FallbackHolds(StateAfter(s, front), e, D.Remembered(Firsts(front), k), k);
      FirstsLast(run, k);
      D.HoldsLater(StateAfter(s, run).fallback, k, D.Remembered(Firsts(run), k), e.link.after, now);
    }
  }

  lemma FirstsLast(run: seq<Event>, k: D.Key)
    requires run != []
    ensures var n := |run| - 1;
            D.Remembered(Firsts(run), k) ==
              D.Next(D.Remembered(Firsts(run[..n]), k), D.Timed(run[n].link.before, run[n].op), k)
  {
    assert Firsts(run)[..|run| - 1] == Firsts(run[..|run| - 1]);
  }

  /** Whatever the server did before: a get that it does not answer gives the value set last,
      if it was not deleted since and its ttl, counted from the call that set it, is not over. */
  lemma UnansweredGetExactly(s: State, run: seq<Event>, k: D.Key, link: Link)
    requires k !in s.fallback && Ordered(run + [Event(D.Get(k), link)]) && !link.fate.Answered?
    requires forall i :: 0 <= i < |run| ==> !(run[i].op.Incr? && run[i].op.key == k)
    ensures var s', m := StateAfter(s, run), D.Remembered(Firsts(run), k);
            var t := if CircuitOpen(s'.fails, s'.openUntil, link.before) then link.before else link.after;
            Call(s', D.Get(k), link).0 == D.Got(if m.Some? && t <= m.value.expire then m.value.value else D.NoneValue)
  {
    OrderedPrefix(run, Event(D.Get(k), link));
    FallbackRemembers(s, run, k, link.before);
    UnansweredCall(StateAfter(s, run), Event(D.Get(k), link));
  }

  /** And so for a get that meets the open circuit, whatever would have become of it. */
  lemma OpenGetExactly(s: State, run: seq<Event>, k: D.Key, link: Link)
    requires k !in s.fallback && Ordered(run + [Event(D.Get(k), link)])
    requires CircuitOpen(StateAfter(s, run).fails, StateAfter(s, run).openUntil, link.before)
    requires forall i :: 0 <= i < |run| ==> !(run[i].op.Incr? && run[i].op.key == k)
    ensures var m := D.Remembered(Firsts(run), k);
            Call(StateAfter(s, run), D.Get(k), link).0 ==
              D.Got(if m.Some? && link.before <= m.value.expire then m.value.value else D.NoneValue)
  {
    OrderedPrefix(run, Event(D.Get(k), link));
    FallbackRemembers(s, run, k, link.before);
  }

  // ---------- The circuit breaker in numbers ----------

  /** The server is asked with fewer than five failures in a row, and again once the open
      circuit is over; a failure that is the fifth or a later one opens it for 30 seconds
      from its end, an answer closes it. */
  lemma BreakerExactly(s: State, e: Event)
    ensures Attempted(s, e) <==> s.fails < 5 || e.link.before > s.openUntil
    ensures var s' := Call(s, e.op, e.link).1;
            && (!Attempted(s, e) ==> s'.fails == s.fails && s'.openUntil == s.openUntil && s'.store == s.store)
            && (Attempted(s, e) && !AttemptFails(s, e) ==> s'.fails == 0)
            && (Attempted(s, e) && AttemptFails(s, e) ==>
                  && s'.fails == s.fails + 1
                  && s'.openUntil == if s.fails >= 4 then e.link.after + 30.0 else s.openUntil)
  {
  }

  /** An attempt fails exactly if its command gets no answer, is one the server refuses, or is
      an incr that opens a counter and whose expire gets no answer. */
  lemma AttemptFailsExactly(s: State, e: Event)
    ensures AttemptFails(s, e) <==>
              || !e.link.fate.Answered?
              || (e.op.Set? && e.op.ttl <= 0)
              || (e.op.Incr? && IncrFails(s.store - e.link.lost, e))
  {
  }

  predicate IncrFails(store: Store, e: Event)
    requires e.op.Incr?
  {
    if Alive(store, e.op.key, e.link.at) then
      !store[e.op.key].value.Num? || (store[e.op.key].value.n == 0 && !e.link.expireFate.Answered?)
    else !e.link.expireFate.Answered?
  }
}
