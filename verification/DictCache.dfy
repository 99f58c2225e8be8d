/** The in-memory TTL cache: expired items stay until somebody looks at them. */
module DictCache {
  import opened Sequences

  type Key = string

  /** Readings of `time.monotonic()`, in seconds; a ttl is a whole number of them. */
  type Time = real

  /** A cached value. `NoneValue` is Python's None, also the answer for a missing key. */
  datatype Value = NoneValue | Num(n: int) | Data(text: string)

  datatype Item = Item(expire: Time, value: Value)

  type Store = map<Key, Item>

  datatype Op =
    | Get(key: Key)
    | Set(key: Key, value: Value, ttl: int)
    | Delete(key: Key)
    | DeletePrefix(prefix: string)
    | Incr(key: Key, ttl: int)

  /** `TypeError` is what incr raises on a value that is no number. */
  datatype Result = Done | Got(value: Value) | TypeError

  function Plus1(v: Value): Result {
    if v.Num? then Got(Num(v.n + 1)) else TypeError
  }

  /** One operation at time now on the lazily expiring store. */
  function Step(data: Store, now: Time, op: Op): (Result, Store) {
    match op
    case Get(k) =>
      if k !in data then (Got(NoneValue), data)
      else if now > data[k].expire then (Got(NoneValue), data - {k})
      else (Got(data[k].value), data)
    case Set(k, v, ttl) => (Done, data[k := Item(now + ttl as Time, v)])
    case Delete(k) => (Done, data - {k})
    case DeletePrefix(p) => (Done, data - set k | k in data && p <= k)
    case Incr(k, ttl) =>
      if k !in data || now > data[k].expire then (Got(Num(1)), data[k := Item(now + ttl as Time, Num(1))])
      else
        var r := Plus1(data[k].value);
        (r, if r.Got? then data[k := Item(data[k].expire, r.value)] else data)
  }

  class Cache {
    var data: Store
    const defaultTtl: int

    constructor (defaultTtl: int)
      ensures data == map[] && this.defaultTtl == defaultTtl
    {
      data := map[];
      this.defaultTtl := defaultTtl;
    }

    function TtlOr(ttl: Option<int>): int {
      if ttl.Some? then ttl.value else defaultTtl
    }

    method Lookup(key: Key, now: Time) returns (value: Value)
      modifies this
      ensures (Got(value), data) == Step(old(data), now, Get(key))
    {
      if key !in data {
        return NoneValue;
      }
      if now > data[key].expire {
        data := data - {key};
        return NoneValue;
      }
      value := data[key].value;
    }

    method Put(key: Key, value: Value, ttl: Option<int>, now: Time)
      modifies this
      ensures data == old(data)[key := Item(now + (if ttl.Some? then ttl.value else defaultTtl) as Time, value)]
      ensures data == Step(old(data), now, Set(key, value, TtlOr(ttl))).1
    {
      var expire := now + TtlOr(ttl) as Time;
      data := data[key := Item(expire, value)];
    }

    method Remove(key: Key)
      modifies this
      ensures forall now :: data == Step(old(data), now, Delete(key)).1
    {
      data := data - {key};
    }

    method RemovePrefix(prefix: string)
      modifies this
      ensures forall now :: data == Step(old(data), now, DeletePrefix(prefix)).1
    {
      var keys := set k | k in data && prefix <= k;
      ghost var all := keys;
      while keys != {}
        invariant keys <= all && data == old(data) - (all - keys)
      {
        var k :| k in keys;
        data := data - {k};
        keys := keys - {k};
      }
    }

    method Clear()
      modifies this
      ensures data == map[]
    {
      data := map[];
    }

    method Increment(key: Key, ttl: Option<int>, now: Time) returns (r: Result)
      modifies this
      ensures (r, data) == Step(old(data), now, Incr(key, TtlOr(ttl)))
    {
      if key !in data || now > data[key].expire {
        var expire := now + TtlOr(ttl) as Time;
        data := data[key := Item(expire, Num(1))];
        return Got(Num(1));
      }
      r := Plus1(data[key].value);
      if r.Got? {
        data := data[key := Item(data[key].expire, r.value)];
      }
    }
  }

  // ---------- Refinement of an eagerly expiring map ----------

  /** The items that have not expired at time now. */
  function Live(data: Store, now: Time): Store {
    map k | k in data && now <= data[k].expire :: data[k]
  }

  /** The simple cache: everything expired is dropped first, then a plain map operation. */
  function EagerStep(data: Store, now: Time, op: Op): (Result, Store) {
    var live := Live(data, now);
    match op
    case Get(k) => (Got(if k in live then live[k].value else NoneValue), live)
    case Set(k, v, ttl) => (Done, live[k := Item(now + ttl as Time, v)])
    case Delete(k) => (Done, live - {k})
    case DeletePrefix(p) => (Done, live - set k | k in live && p <= k)
    case Incr(k, ttl) =>
      if k in live then
        var r := Plus1(live[k].value);
        (r, if r.Got? then live[k := Item(live[k].expire, r.value)] else live)
      else (Got(Num(1)), live[k := Item(now + ttl as Time, Num(1))])
  }

  /** An operation and the time it reads. */
  datatype Timed = Timed(now: Time, op: Op)

  function Results(data: Store, run: seq<Timed>): seq<Result>
    decreases |run|
  {
    if run == [] then []
    else
      var (r, next) := Step(data, run[0].now, run[0].op);
      [r] + Results(next, run[1..])
  }

  function EagerResults(data: Store, run: seq<Timed>): seq<Result>
    decreases |run|
  {
    if run == [] then []
    else
      var (r, next) := EagerStep(data, run[0].now, run[0].op);
      [r] + EagerResults(next, run[1..])
  }

  ghost predicate Nondecreasing(run: seq<Timed>) {
    forall i, j :: 0 <= i < j < |run| ==> run[i].now <= run[j].now
  }

  lemma LiveAgain(data: Store, before: Time, now: Time)
    requires before <= now
    ensures Live(Live(data, before), now) == Live(data, now)
  {
  }

  lemma LiveWithout(data: Store, gone: set<Key>, live: set<Key>, now: Time)
    requires forall k :: k in data && now <= data[k].expire ==> (k in gone <==> k in live)
    ensures Live(data - gone, now) == Live(data, now) - live
  {
  }

  lemma LiveWith(data: Store, k: Key, item: Item, now: Time)
    requires now <= item.expire
    ensures Live(data[k := item], now) == Live(data, now)[k := item]
  {
  }

  /** An item that has expired when it is entered is not there. */
  lemma LiveWithExpired(data: Store, k: Key, item: Item, now: Time)
    requires item.expire < now
    ensures Live(data[k := item], now) == Live(data, now) - {k} == Live(Live(data, now)[k := item], now)
  {
  }

  /** An operation on the lazy store answers as on its live items. */
  lemma StepOfLive(data: Store, now: Time, op: Op)
    ensures Step(data, now, op).0 == EagerStep(Live(data, now), now, op).0
    ensures Live(Step(data, now, op).1, now) == Live(EagerStep(Live(data, now), now, op).1, now)
  {
    var live := Live(data, now);
    LiveAgain(data, now, now);
    match op
    case Get(k) => LiveWithout(data, {k}, {k}, now);
    case Set(k, v, ttl) => SetOfLive(data, now, k, Item(now + ttl as Time, v));
    case Delete(k) => DeletedOfLive(data, now, {k}, {k});
    case DeletePrefix(p) =>
      DeletedOfLive(data, now, set k | k in data && p <= k, set k | k in live && p <= k);
    case Incr(k, ttl) =>
      if k in live {
        var r := Plus1(data[k].value);
        if r.Got? { SetOfLive(data, now, k, Item(data[k].expire, r.value)); }
      } else {
        SetOfLive(data, now, k, Item(now + ttl as Time, Num(1)));
      }
  }

  lemma SetOfLive(data: Store, now: Time, k: Key, item: Item)
    ensures Live(data[k := item], now) == Live(Live(data, now)[k := item], now)
  {
    LiveAgain(data, now, now);
    if now <= item.expire {
      LiveWith(data, k, item, now);
      LiveWith(Live(data, now), k, item, now);
    } else {
      LiveWithExpired(data, k, item, now);
    }
  }

  lemma DeletedOfLive(data: Store, now: Time, gone: set<Key>, live: set<Key>)
    requires forall k :: k in data && now <= data[k].expire ==> (k in gone <==> k in live)
    ensures Live(data - gone, now) == Live(Live(data, now) - live, now)
  {
    LiveWithout(data, gone, live, now);
    LiveWithout(Live(data, now), live, live, now);
    LiveAgain(data, now, now);
  }

  lemma StepRefines(lazy: Store, eager: Store, before: Time, now: Time, op: Op)
    requires before <= now && Live(lazy, before) == Live(eager, before)
    ensures Step(lazy, now, op).0 == EagerStep(eager, now, op).0
    ensures Live(Step(lazy, now, op).1, now) == Live(EagerStep(eager, now, op).1, now)
  {
    LiveAgain(lazy, before, now);
    LiveAgain(eager, before, now);
    LiveAgain(eager, now, now);
    StepOfLive(lazy, now, op);
    assert EagerStep(eager, now, op) == EagerStep(Live(eager, now), now, op);
  }

  /** With a clock that never goes back, lazy expiry cannot be told from eager expiry. */
  lemma {:induction false} LazyIsEager(lazy: Store, eager: Store, before: Time, run: seq<Timed>)
    requires Live(lazy, before) == Live(eager, before)
    requires Nondecreasing(run) && (run != [] ==> before <= run[0].now)
    ensures Results(lazy, run) == EagerResults(eager, run)
    decreases |run|
  {
    if run != [] {
      var now, op := run[0].now, run[0].op;
      StepRefines(lazy, eager, before, now, op);
      LazyIsEager(Step(lazy, now, op).1, EagerStep(eager, now, op).1, now, run[1..]);
    }
  }

  // ---------- Counting in windows ----------

  /** op does not disturb a counter at key k with this ttl: reads, other keys, its own incr. */
  predicate Leaves(op: Op, k: Key, ttl: int) {
    match op
    case Get(_) => true
    case Set(k', _, _) => k' != k
    case Delete(k') => k' != k
    case DeletePrefix(p) => !(p <= k)
    case Incr(k', ttl') => k' == k ==> ttl' == ttl
  }

  /** The times and the results of the incr calls on k in a run. */
  function IncrTimes(run: seq<Timed>, k: Key): seq<Time> {
    if run == [] then []
    else (if Counted(run[0], k) then [run[0].now] else []) + IncrTimes(run[1..], k)
  }

  function IncrResults(data: Store, run: seq<Timed>, k: Key): seq<Result>
    decreases |run|
  {
    if run == [] then []
    else
      var (r, next) := Step(data, run[0].now, run[0].op);
      (if Counted(run[0], k) then [r] else []) + IncrResults(next, run[1..], k)
  }

  /** A window that opened at `start` and has counted `n` calls. */
  datatype Window = Window(start: Time, n: nat)

  function Advance(w: Option<Window>, t: Time, ttl: int): Window {
    if w.None? || t > w.value.start + ttl as Time then Window(t, 1) else Window(w.value.start, w.value.n + 1)
  }

  /** What a fixed-window counter says at the given times. */
  function Counts(ts: seq<Time>, ttl: int, w: Option<Window>): (ns: seq<nat>)
    ensures |ns| == |ts|
    decreases |ts|
  {
    if ts == [] then []
    else
      var w' := Advance(w, ts[0], ttl);
      [w'.n] + Counts(ts[1..], ttl, Some(w'))
  }

  function Nums(ns: seq<nat>): seq<Result> {
    if ns == [] then [] else [Got(Num(ns[0]))] + Nums(ns[1..])
  }

  /** The store agrees with a window at time now: an expired one may be gone already. */
  predicate Tracks(data: Store, k: Key, ttl: int, w: Option<Window>, now: Time) {
    if w.None? || now > w.value.start + ttl as Time then
      k !in data || (w.Some? && data[k] == Item(w.value.start + ttl as Time, Num(w.value.n)))
    else k in data && data[k] == Item(w.value.start + ttl as Time, Num(w.value.n))
  }

  predicate Counted(e: Timed, k: Key) { e.op.Incr? && e.op.key == k }

  lemma StepTracks(data: Store, e: Timed, k: Key, ttl: int, w: Option<Window>, before: Time)
    requires ttl >= 0 && before <= e.now && Leaves(e.op, k, ttl) && Tracks(data, k, ttl, w, before)
    ensures var (r, next) := Step(data, e.now, e.op);
            if Counted(e, k) then
              var w' := Advance(w, e.now, ttl);
              r == Got(Num(w'.n)) && Tracks(next, k, ttl, Some(w'), e.now)
            else Tracks(next, k, ttl, w, e.now)
  {
  }

  /** On a key no other operation writes, incr is a fixed-window counter. */
  lemma {:induction false} IncrCountsWindows(data: Store, run: seq<Timed>, k: Key, ttl: int, w: Option<Window>,
                                             before: Time)
    requires ttl >= 0 && Nondecreasing(run) && (run != [] ==> before <= run[0].now)
    requires forall e :: e in run ==> Leaves(e.op, k, ttl)
    requires Tracks(data, k, ttl, w, before)
    ensures IncrResults(data, run, k) == Nums(Counts(IncrTimes(run, k), ttl, w))
    decreases |run|
  {
    if run != [] {
      var e, rest := run[0], run[1..];
      assert e in run;
      StepTracks(data, e, k, ttl, w, before);
      var (r, next) := Step(data, e.now, e.op);
      var ts := IncrTimes(rest, k);
      if Counted(e, k) {
        var w' := Advance(w, e.now, ttl);
        IncrCountsWindows(next, rest, k, ttl, Some(w'), e.now);
        assert IncrTimes(run, k) == [e.now] + ts && ([e.now] + ts)[1..] == ts;
        assert Counts([e.now] + ts, ttl, w) == [w'.n] + Counts(ts, ttl, Some(w'));
        assert ([w'.n] + Counts(ts, ttl, Some(w')))[1..] == Counts(ts, ttl, Some(w'));
      } else {
        IncrCountsWindows(next, rest, k, ttl, w, e.now);
        assert IncrTimes(run, k) == ts;
      }
    }
  }

  /** How many of the numbers are at most limit. */
  function AtMost(ns: seq<nat>, limit: nat): nat {
    if ns == [] then 0 else (if ns[0] <= limit then 1 else 0) + AtMost(ns[1..], limit)
  }

  function StateAfter(ts: seq<Time>, ttl: int, w: Option<Window>): Option<Window>
    decreases |ts|
  {
    if ts == [] then w else StateAfter(ts[1..], ttl, Some(Advance(w, ts[0], ttl)))
  }

  lemma {:induction false} CountsConcat(xs: seq<Time>, ys: seq<Time>, ttl: int, w: Option<Window>)
    ensures Counts(xs + ys, ttl, w) == Counts(xs, ttl, w) + Counts(ys, ttl, StateAfter(xs, ttl, w))
    decreases |xs|
  {
    if xs == [] {
      assert xs + ys == ys;
    } else {
      assert (xs + ys)[1..] == xs[1..] + ys;
      CountsConcat(xs[1..], ys, ttl, Some(Advance(w, xs[0], ttl)));
    }
  }

  /** Within one window each number occurs once. */
  lemma {:induction false} OneWindow(ts: seq<Time>, ttl: int, w: Window, limit: nat)
    requires forall t :: t in ts ==> t <= w.start + ttl as Time
    ensures AtMost(Counts(ts, ttl, Some(w)), limit) <= if w.n < limit then limit - w.n else 0
    decreases |ts|
  {
    if ts != [] {
      assert ts[0] in ts && forall u :: u in ts[1..] ==> u in ts;
      OneWindow(ts[1..], ttl, Advance(Some(w), ts[0], ttl), limit);
    }
  }

  /** A closed interval of one ttl meets at most two windows. */
  lemma {:induction false} TwoWindows(ts: seq<Time>, ttl: int, w: Option<Window>, limit: nat, first: Time)
    requires ttl >= 0 && forall t :: t in ts ==> first <= t <= first + ttl as Time
    ensures AtMost(Counts(ts, ttl, w), limit)
         <= limit + if w.Some? && w.value.n < limit then limit - w.value.n else 0
    decreases |ts|
  {
    if ts != [] {
      var t := ts[0];
      assert t in ts && forall u :: u in ts[1..] ==> u in ts;
      var w' := Advance(w, t, ttl);
      if w.None? || t > w.value.start + ttl as Time {
        OneWindow(ts[1..], ttl, w', limit);
      } else {
        TwoWindows(ts[1..], ttl, Some(w'), limit, first);
      }
    }
  }

  /** Any closed interval as long as the ttl holds at most twice `limit` calls that were
      answered with a number up to the limit, wherever the windows happen to lie. */
  lemma AtMostTwiceTheLimit(ts: seq<Time>, ttl: int, a: nat, b: nat, limit: nat)
    requires ttl >= 0 && a <= b <= |ts|
    requires forall i, j :: 0 <= i < j < |ts| ==> ts[i] <= ts[j]
    requires a < b ==> ts[b - 1] - ts[a] <= ttl as Time
    ensures AtMost(Counts(ts, ttl, None)[a..b], limit) <= 2 * limit
  {
    var w := StateAfter(ts[..a], ttl, None);
    CountsConcat(ts[..a], ts[a..b], ttl, None);
    CountsConcat(ts[..b], ts[b..], ttl, None);
    assert ts[..a] + ts[a..b] == ts[..b] && ts[..b] + ts[b..] == ts;
    assert Counts(ts, ttl, None)[a..b] == Counts(ts[a..b], ttl, w);
    if a < b {
      TwoWindows(ts[a..b], ttl, w, limit, ts[a]);
    }
  }

  lemma {:induction false} IncrTimesOrdered(run: seq<Timed>, k: Key)
    requires Nondecreasing(run)
    ensures forall i :: 0 <= i < |IncrTimes(run, k)| ==> run[0].now <= IncrTimes(run, k)[i]
    ensures forall i, j :: 0 <= i < j < |IncrTimes(run, k)| ==> IncrTimes(run, k)[i] <= IncrTimes(run, k)[j]
  {
    if run != [] {
      IncrTimesOrdered(run[1..], k);
    }
  }

  /** The rate limiter: in a run on an empty cache, the answers to incr on a key nothing
      else writes hold, in any closed interval of one ttl, at most 2 * limit numbers up to limit. */
  lemma RateLimit(run: seq<Timed>, k: Key, ttl: int, a: nat, b: nat, limit: nat)
    requires ttl >= 0 && Nondecreasing(run) && forall e :: e in run ==> Leaves(e.op, k, ttl)
    requires a <= b <= |IncrTimes(run, k)|
    requires a < b ==> IncrTimes(run, k)[b - 1] - IncrTimes(run, k)[a] <= ttl as Time
    ensures var ns := Counts(IncrTimes(run, k), ttl, None);
            IncrResults(map[], run, k) == Nums(ns) && AtMost(ns[a..b], limit) <= 2 * limit
  {
    IncrTimesOrdered(run, k);
    IncrCountsWindows(map[], run, k, ttl, None, if run == [] then 0.0 else run[0].now);
    AtMostTwiceTheLimit(IncrTimes(run, k), ttl, a, b, limit);
  }

  // ---------- What the cache remembers ----------

  /** The store after a run. */
  function After(data: Store, run: seq<Timed>): Store {
    if run == [] then data
    else Step(After(data, run[..|run| - 1]), run[|run| - 1].now, run[|run| - 1].op).1
  }

  /** What is remembered of a key after one more operation; for keys no incr touches. */
  function Next(m: Option<Item>, e: Timed, k: Key): Option<Item> {
    match e.op
    case Set(k', v, ttl) => if k' == k then Some(Item(e.now + ttl as Time, v)) else m
    case Delete(k') => if k' == k then None else m
    case DeletePrefix(p) => if p <= k then None else m
    case Get(_) => m
    case Incr(_, _) => m
  }

  /** The last value a run has set for a key, and how long it holds, unless it was deleted
      since. */
  function Remembered(run: seq<Timed>, k: Key): Option<Item> {
    if run == [] then None else Next(Remembered(run[..|run| - 1], k), run[|run| - 1], k)
  }

  /** The store holds what is remembered; what has expired it may have dropped. */
  predicate Holds(data: Store, k: Key, m: Option<Item>, now: Time) {
    if k in data then m == Some(data[k]) else m.Some? ==> m.value.expire < now
  }

  lemma StepHolds(data: Store, k: Key, m: Option<Item>, e: Timed)
    requires Holds(data, k, m, e.now) && !(e.op.Incr? && e.op.key == k)
    ensures Holds(Step(data, e.now, e.op).1, k, Next(m, e, k), e.now)
  {
  }

  lemma HoldsLater(data: Store, k: Key, m: Option<Item>, now: Time, later: Time)
    requires Holds(data, k, m, now) && now <= later
    ensures Holds(data, k, m, later)
  {
  }

  lemma {:induction false} StoreRemembers(run: seq<Timed>, k: Key, now: Time)
    requires Nondecreasing(run) && (run != [] ==> run[|run| - 1].now <= now)
    requires forall i :: 0 <= i < |run| ==> !(run[i].op.Incr? && run[i].op.key == k)
    ensures Holds(After(map[], run), k, Remembered(run, k), now)
    decreases |run|
  {
    if run != [] {
      var front, e := run[..|run| - 1], run[|run| - 1];
      StoreRemembers(front, k, e.now);
      assert !(e.op.Incr? && e.op.key == k);
      StepHolds(After(map[], front), k, Remembered(front, k), e);
      HoldsLater(After(map[], run), k, Remembered(run, k), e.now, now);
    }
  }

  /** get answers with the value set last, if it was not deleted since and its ttl is not
      over, and with None otherwise. */
  lemma GetExactly(run: seq<Timed>, k: Key, now: Time)
    requires Nondecreasing(run) && (run != [] ==> run[|run| - 1].now <= now)
    requires forall i :: 0 <= i < |run| ==> !(run[i].op.Incr? && run[i].op.key == k)
    ensures var m := Remembered(run, k);
            Step(After(map[], run), now, Get(k)).0 ==
              Got(if m.Some? && now <= m.value.expire then m.value.value else NoneValue)
  {
    StoreRemembers(run, k, now);
  }

  /** incr begins a counter that is missing or over, counts one on that is running, without a
      new ttl, and fails on a value that is no number. */
  lemma IncrExactly(data: Store, now: Time, k: Key, ttl: int)
    ensures Step(data, now, Incr(k, ttl)) ==
              (if k !in data || now > data[k].expire
               then (Got(Num(1)), data[k := Item(now + ttl as Time, Num(1))])
               else match data[k].value
                 case Num(n) => (Got(Num(n + 1)), data[k := Item(data[k].expire, Num(n + 1))])
                 case _ => (TypeError, data))
  {
  }
}
