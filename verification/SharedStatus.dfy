/** The cache of device states on a Redis backend, whose deletes can be missed. */
module SharedStatus {
  import opened Sequences
  import D = DictCache
  import R = RedisCache
  import C = StatusCache

  /** What concerns one server: the keys of its status and of its protections. */
  datatype Config = Config(key: D.Key, l7Key: D.Key, ttl: int)
  {
    predicate Valid() { key != l7Key }
  }

  /** A status as the cache keeps it. */
  function Encode(status: C.Status): D.Value { D.Data(status.description) }

  /** One server: what the device is set to, and the cache with its server. */
  datatype State = State(device: C.Status, cache: R.State)

  /** The calls of the manager on a server with the circumstances of each cache call.
      `Write` drops both keys first, `DeleteRule` also asks for the status before it
      deletes, `SilentWrite` leaves the cache alone; `Other` is any cache call for another
      purpose. */
  datatype Action =
    | Read(get: R.Link, put: R.Link)
    | Write(drop: R.Link, dropL7: R.Link, at: D.Time, device: C.Status)
    | DeleteRule(drop: R.Link, dropL7: R.Link, get: R.Link, put: R.Link, at: D.Time, device: C.Status)
    | SilentWrite(at: D.Time, device: C.Status)
    | Other(op: D.Op, link: R.Link)
  {
    function Start(): D.Time {
      match this
      case Read(get, _) => get.before
      case Write(drop, _, _, _) => drop.before
      case DeleteRule(drop, _, _, _, _, _) => drop.before
      case SilentWrite(at, _) => at
      case Other(_, link) => link.before
    }

    function End(): D.Time {
      match this
      case Read(_, put) => put.after
      case Other(_, link) => link.after
      case _ => at
    }

    /** The readings of a call do not go back, and other calls do not write the key. */
    predicate Valid(key: D.Key) {
      match this
      case Read(get, put) => get.Valid() && put.Valid() && get.after <= put.before
      case Write(drop, dropL7, at, _) =>
        drop.Valid() && dropL7.Valid() && drop.after <= dropL7.before && dropL7.after <= at
      case DeleteRule(drop, dropL7, get, put, at, _) =>
        && drop.Valid() && dropL7.Valid() && get.Valid() && put.Valid()
        && drop.after <= dropL7.before && dropL7.after <= get.before && get.after <= put.before && put.after <= at
      case SilentWrite(_, _) => true
      case Other(op, link) => link.Valid() && (op.Set? || op.Incr? ==> op.key != key)
    }
  }

  function Drop(c: Config, cache: R.State, drop: R.Link, dropL7: R.Link): R.State {
    R.Call(R.Call(cache, D.Delete(c.key), drop).1, D.Delete(c.l7Key), dropL7).1
  }

  /** `get_status`: what the cache answers, or the device's status, which is then cached. */
  function ReadStatus(c: Config, s: State, get: R.Link, put: R.Link): (D.Value, State) {
    if c.ttl <= 0 then (Encode(s.device), s)
    else
      var (r, cache) := R.Call(s.cache, D.Get(c.key), get);
      if r.Got? && r.value != D.NoneValue then (r.value, s.(cache := cache))
      else (Encode(s.device), s.(cache := R.Call(cache, D.Set(c.key, Encode(s.device), c.ttl), put).1))
  }

  function Step(c: Config, s: State, a: Action): State {
    match a
    case Read(get, put) => ReadStatus(c, s, get, put).1
    case Write(drop, dropL7, _, device) => State(device, Drop(c, s.cache, drop, dropL7))
    case DeleteRule(drop, dropL7, get, put, _, device) =>
      ReadStatus(c, s.(cache := Drop(c, s.cache, drop, dropL7)), get, put).1.(device := device)
    case SilentWrite(_, device) => s.(device := device)
    case Other(op, link) => s.(cache := R.Call(s.cache, op, link).1)
  }

  class Manager {
    const ttl: int
    const cache: R.Cache
    const network: C.Network

    constructor (cache: R.Cache, ttl: int, network: C.Network)
      ensures this.cache == cache && this.ttl == ttl && this.network == network
    {
      this.cache, this.ttl, this.network := cache, ttl, network;
    }

    function ConfigOf(server: C.Server): (c: Config)
      ensures c.Valid() && c.key == "fws:" + server && c.l7Key == "fwl:" + server && c.ttl == ttl
    {
      assert "fws:"[2] == 's' && "fwl:"[2] == 'l';
      assert ("fws:" + server)[2] == 's' && ("fwl:" + server)[2] == 'l';
      Config("fws:" + server, "fwl:" + server, ttl)
    }

    function StateOf(server: C.Server): State
      requires server in network.devices
      reads network, cache, cache.server, cache.fallback
    {
      State(network.devices[server], cache.Abstract())
    }

    method InvalidateCache(server: C.Server, drop: R.Link, dropL7: R.Link)
      modifies cache, cache.server, cache.fallback
      ensures cache.Abstract() == Drop(ConfigOf(server), old(cache.Abstract()), drop, dropL7)
    {
      cache.Remove(ConfigOf(server).key, drop);
      cache.Remove(ConfigOf(server).l7Key, dropL7);
    }

    method GetStatus(server: C.Server, get: R.Link, put: R.Link) returns (status: D.Value)
      requires server in network.devices
      modifies cache, cache.server, cache.fallback
      ensures (status, StateOf(server)) == ReadStatus(ConfigOf(server), old(StateOf(server)), get, put)
    {
      var key := ConfigOf(server).key;
      if ttl > 0 {
        status := cache.Get(key, get);
        if status != D.NoneValue {
          return;
        }
      }
      status := Encode(network.devices[server]);
      if ttl > 0 {
        cache.Put(key, status, Some(ttl), put);
      }
    }

    /** add_rule, block_ip and the other writers that drop the cache before they write. */
    method WriteDevice(server: C.Server, device: C.Status, drop: R.Link, dropL7: R.Link, ghost at: D.Time)
      requires server in network.devices
      modifies network, cache, cache.server, cache.fallback
      ensures network.devices == old(network.devices)[server := device]
      ensures StateOf(server) == Step(ConfigOf(server), old(StateOf(server)), Write(drop, dropL7, at, device))
    {
      InvalidateCache(server, drop, dropL7);
      network.devices := network.devices[server := device];
    }

    method DeleteRuleAt(server: C.Server, device: C.Status, drop: R.Link, dropL7: R.Link,
                        get: R.Link, put: R.Link, ghost at: D.Time)
      requires server in network.devices
      modifies network, cache, cache.server, cache.fallback
      ensures network.devices == old(network.devices)[server := device]
      ensures StateOf(server)
           == Step(ConfigOf(server), old(StateOf(server)), DeleteRule(drop, dropL7, get, put, at, device))
    {
      InvalidateCache(server, drop, dropL7);
      var status := GetStatus(server, get, put);
      network.devices := network.devices[server := device];
    }
  }

  // ---------- What the cache holds for the key ----------

  /** No item for the key in `after` that is not in `before`. */
  predicate NoNewItem(k: D.Key, before: R.State, after: R.State) {
    && (k in after.fallback ==> k in before.fallback && after.fallback[k] == before.fallback[k])
    && (k in after.store ==> k in before.store && after.store[k] == before.store[k])
  }

  predicate Writes(op: D.Op, k: D.Key) { (op.Set? || op.Incr?) && op.key == k }

  lemma UnwrittenItems(s: R.State, op: D.Op, link: R.Link, k: D.Key)
    requires !Writes(op, k)
    ensures NoNewItem(k, s, R.Call(s, op, link).1)
  {
    R.FallbackOrigin(s, op, link, k);
    R.ExchangeOrigin(s.store, op, link, k);
    R.StoreOrigin(s, op, link);
  }

  /** What get answers is an item that has not expired when the call begins; an item of the
      server also takes a circuit that is not open. */
  lemma AnswerIsItem(s: R.State, k: D.Key, link: R.Link)
    requires link.Valid()
    ensures var r := R.Call(s, D.Get(k), link).0;
            r.Got? && (r.value != D.NoneValue ==>
              || (k in s.fallback && r.value == s.fallback[k].value && link.before <= s.fallback[k].expire)
              || (k in s.store && r.value == s.store[k].value && !R.CircuitOpen(s.fails, s.openUntil, link.before)
                  && (s.store[k].expire.Some? ==> link.before <= s.store[k].expire.value)))
  {
  }

  // ---------- Items the circuit breaker outlasts ----------

  /** An item of the server that will never be served: it has expired, or it will have when
      the open circuit lets the next call through. */
  predicate Doomed(cache: R.State, expire: D.Time, now: D.Time) {
    expire < now || (cache.fails >= R.THRESHOLD && expire <= cache.openUntil)
  }

  /** No call revives a doomed item. */
  lemma DoomedStays(s: R.State, op: D.Op, link: R.Link, expire: D.Time, now: D.Time)
    requires Doomed(s, expire, now) && now <= link.before && link.Valid()
    ensures Doomed(R.Call(s, op, link).1, expire, link.after)
  {
    Breaker(s, op, link);
  }

  /** What a call does to the breaker. */
  lemma Breaker(s: R.State, op: D.Op, link: R.Link)
    ensures var s' := R.Call(s, op, link).1;
            if R.CircuitOpen(s.fails, s.openUntil, link.before) then
              s'.fails == s.fails && s'.openUntil == s.openUntil && s'.store == s.store
            else if R.Exchange(s.store, op, link).0.Some? then s'.fails == 0
            else s'.fails == s.fails + 1
                 && s'.openUntil == if s'.fails >= R.THRESHOLD then link.after + R.RESET_SECS else s.openUntil
  {
  }

  /** The server's item for the key was set no later than now, and if a ttl is no longer
      than the circuit stays open, an open circuit outlasts it. */
  predicate InBounds(c: Config, cache: R.State, now: D.Time) {
    c.key in cache.store ==>
      && cache.store[c.key].expire.Some?
      && cache.store[c.key].expire.value <= now + c.ttl as D.Time
      && (c.ttl as D.Time <= R.RESET_SECS && cache.fails >= R.THRESHOLD ==>
            cache.store[c.key].expire.value <= cache.openUntil)
  }

  lemma CallKeepsBounds(c: Config, s: R.State, op: D.Op, link: R.Link, now: D.Time)
    requires InBounds(c, s, now) && now <= link.before && link.Valid()
    requires Writes(op, c.key) ==> op.Set? && op.ttl == c.ttl
    ensures InBounds(c, R.Call(s, op, link).1, link.after)
  {
    Breaker(s, op, link);
    R.StoreOrigin(s, op, link);
    R.ExchangeOrigin(s.store, op, link, c.key);
  }

  // ---------- Invalidations that are missed ----------

  /** The two deletes of an invalidation leave the server's item for the key where it can
      be served. With a ttl of at most the 30 seconds the circuit stays open this takes a
      first delete that is refused and leaves, with the second, the circuit closed. */
  predicate Missed(c: Config, s: R.State, drop: R.Link, dropL7: R.Link) {
    if c.ttl as D.Time <= R.RESET_SECS then
      && drop.fate.Refused? && s.fails + 1 < R.THRESHOLD
      && (dropL7.fate.Answered? || s.fails + 2 < R.THRESHOLD)
    else R.CircuitOpen(s.fails, s.openUntil, drop.before) || drop.fate.Refused?
  }

  predicate InTurn(drop: R.Link, dropL7: R.Link) {
    drop.Valid() && dropL7.Valid() && drop.after <= dropL7.before
  }

  /** The first delete, if it is not refused below the threshold. */
  lemma FirstDelete(c: Config, s: R.State, drop: R.Link, now: D.Time)
    requires InBounds(c, s, now) && now <= drop.before && drop.Valid()
    ensures var s1 := R.Call(s, D.Delete(c.key), drop).1;
            && c.key !in s1.fallback && NoNewItem(c.key, s, s1)
            && (c.key in s1.store ==>
                  R.CircuitOpen(s.fails, s.openUntil, drop.before) || drop.fate.Refused?)
            && (c.key in s1.store && c.ttl as D.Time <= R.RESET_SECS ==>
                  || Doomed(s1, s1.store[c.key].expire.value, drop.after)
                  || (drop.fate.Refused? && s1.fails == s.fails + 1 < R.THRESHOLD))
  {
    Breaker(s, D.Delete(c.key), drop);
    UnwrittenItems(s, D.Delete(c.key), drop, c.key);
    CallKeepsBounds(c, s, D.Delete(c.key), drop, now);
  }

  /** An invalidation that is not missed leaves nothing that can be served. */
  lemma HeardDrops(c: Config, s: R.State, drop: R.Link, dropL7: R.Link, now: D.Time)
    requires c.Valid() && InBounds(c, s, now) && now <= drop.before && InTurn(drop, dropL7)
    requires !Missed(c, s, drop, dropL7)
    ensures var s' := Drop(c, s, drop, dropL7);
            c.key !in s'.fallback
            && (c.key in s'.store ==> Doomed(s', s'.store[c.key].expire.value, dropL7.after))
  {
    var s1, op := R.Call(s, D.Delete(c.key), drop).1, D.Delete(c.l7Key);
    FirstDelete(c, s, drop, now);
    CallKeepsBounds(c, s, D.Delete(c.key), drop, now);
    CallKeepsBounds(c, s1, op, dropL7, drop.after);
    UnwrittenItems(s1, op, dropL7, c.key);
    Breaker(s1, op, dropL7);
    if c.key in s1.store && Doomed(s1, s1.store[c.key].expire.value, drop.after) {
      DoomedStays(s1, op, dropL7, s1.store[c.key].expire.value, drop.after);
    }
  }

  // ---------- Why a status can be stale ----------

  function After(c: Config, s: State, run: seq<Action>): State
    decreases |run|
  {
    if run == [] then s else Step(c, After(c, s, run[..|run| - 1]), run[|run| - 1])
  }

  ghost predicate Ordered(c: Config, run: seq<Action>) {
    && (forall i :: 0 <= i < |run| ==> run[i].Valid(c.key))
    && (forall i, j :: 0 <= i < j < |run| ==> run[i].End() <= run[j].Start())
  }

  /** A call that changes the device while the cache keeps, or is given, the state before:
      a writer that never invalidates, delete_rule, or a writer whose invalidation was
      missed. */
  predicate Excuses(c: Config, s: State, a: Action) {
    a.SilentWrite? || a.DeleteRule? || (a.Write? && Missed(c, s.cache, a.drop, a.dropL7))
  }

  ghost predicate ExcusedSince(c: Config, s: State, run: seq<Action>, t: D.Time) {
    exists i :: 0 <= i < |run| && Excuses(c, After(c, s, run[..i]), run[i]) && t <= run[i].at
  }

  lemma ExcusedLater(c: Config, s: State, run: seq<Action>, a: Action, t: D.Time)
    requires ExcusedSince(c, s, run, t)
    ensures ExcusedSince(c, s, run + [a], t)
  {
    var i :| 0 <= i < |run| && Excuses(c, After(c, s, run[..i]), run[i]) && t <= run[i].at;
    var all := run + [a];
    assert all[..i] == run[..i] && all[i] == run[i];
  }

  lemma ExcusedNow(c: Config, s: State, run: seq<Action>, a: Action, t: D.Time)
    requires Excuses(c, After(c, s, run), a) && t <= a.at
    ensures ExcusedSince(c, s, run + [a], t)
  {
    var all := run + [a];
    assert all[..|run|] == run && all[|run|] == a;
  }

  /** A value that says nothing wrong: the device's status, or nothing at all. */
  predicate Harmless(device: C.Status, value: D.Value) { value == Encode(device) || value == D.NoneValue }

  /** An item set by now is harmless, or there is an excuse since the time it was set. */
  ghost predicate Fine(c: Config, s0: State, run: seq<Action>, device: C.Status, value: D.Value, expire: D.Time)
  {
    Harmless(device, value) || ExcusedSince(c, s0, run, expire - c.ttl as D.Time)
  }

  ghost predicate FallbackFine(c: Config, s0: State, run: seq<Action>, device: C.Status, cache: R.State, now: D.Time) {
    c.key in cache.fallback ==>
      && cache.fallback[c.key].expire <= now + c.ttl as D.Time
      && Fine(c, s0, run, device, cache.fallback[c.key].value, cache.fallback[c.key].expire)
  }

  ghost predicate StoreFine(c: Config, s0: State, run: seq<Action>, device: C.Status, cache: R.State, now: D.Time) {
    && InBounds(c, cache, now)
    && (c.key in cache.store ==>
          || Doomed(cache, cache.store[c.key].expire.value, now)
          || Fine(c, s0, run, device, cache.store[c.key].value, cache.store[c.key].expire.value))
  }

  ghost predicate AllFine(c: Config, s0: State, run: seq<Action>, device: C.Status, cache: R.State, now: D.Time) {
    FallbackFine(c, s0, run, device, cache, now) && StoreFine(c, s0, run, device, cache, now)
  }

  lemma FineLater(c: Config, s0: State, run: seq<Action>, device: C.Status, cache: R.State,
                  now: D.Time, later: D.Time)
    requires AllFine(c, s0, run, device, cache, now) && now <= later
    ensures AllFine(c, s0, run, device, cache, later)
  {
  }

  lemma CallKeepsFine(c: Config, s0: State, run: seq<Action>, device: C.Status, cache: R.State,
                      op: D.Op, link: R.Link, now: D.Time)
    requires AllFine(c, s0, run, device, cache, now) && now <= link.before && link.Valid()
    requires !Writes(op, c.key)
    ensures AllFine(c, s0, run, device, R.Call(cache, op, link).1, link.after)
  {
    UnwrittenItems(cache, op, link, c.key);
    CallKeepsBounds(c, cache, op, link, now);
    if c.key in cache.store && Doomed(cache, cache.store[c.key].expire.value, now) {
      DoomedStays(cache, op, link, cache.store[c.key].expire.value, now);
    }
  }

  /** Setting the key to the device's status. */
  lemma SetKeepsFine(c: Config, s0: State, run: seq<Action>, device: C.Status, cache: R.State,
                     link: R.Link, now: D.Time)
    requires AllFine(c, s0, run, device, cache, now) && now <= link.before && link.Valid()
    ensures AllFine(c, s0, run, device, R.Call(cache, D.Set(c.key, Encode(device), c.ttl), link).1, link.after)
  {
    var op := D.Set(c.key, Encode(device), c.ttl);
    R.FallbackOrigin(cache, op, link, c.key);
    R.ExchangeOrigin(cache.store, op, link, c.key);
    R.StoreOrigin(cache, op, link);
    CallKeepsBounds(c, cache, op, link, now);
    if c.key in cache.store && Doomed(cache, cache.store[c.key].expire.value, now) {
      DoomedStays(cache, op, link, cache.store[c.key].expire.value, now);
    }
  }

  /** One more call in the run takes no excuse away. */
  lemma FineInLongerRun(c: Config, s0: State, run: seq<Action>, a: Action, device: C.Status, cache: R.State,
                        now: D.Time)
    requires AllFine(c, s0, run, device, cache, now)
    ensures AllFine(c, s0, run + [a], device, cache, now)
  {
    forall t | ExcusedSince(c, s0, run, t) ensures ExcusedSince(c, s0, run + [a], t) {
      ExcusedLater(c, s0, run, a, t);
    }
  }

  /** A change of the device that is an excuse leaves everything cached before it fine. */
  lemma FineWhenExcused(c: Config, s0: State, run: seq<Action>, a: Action, device: C.Status, cache: R.State,
                        now: D.Time)
    requires AllFine(c, s0, run, device, cache, now)
    requires Excuses(c, After(c, s0, run), a) && now <= a.at
    ensures AllFine(c, s0, run + [a], a.device, cache, a.at)
  {
    forall t: D.Time | t <= a.at ensures ExcusedSince(c, s0, run + [a], t) {
      ExcusedNow(c, s0, run, a, t);
    }
  }

  /** Reading the status caches the device's own. */
  lemma ReadKeepsFine(c: Config, s0: State, run: seq<Action>, s: State, get: R.Link, put: R.Link, now: D.Time)
    requires AllFine(c, s0, run, s.device, s.cache, now)
    requires now <= get.before && InTurn(get, put)
    ensures var s' := ReadStatus(c, s, get, put).1;
            s'.device == s.device && AllFine(c, s0, run, s.device, s'.cache, put.after)
  {
    var cache := R.Call(s.cache, D.Get(c.key), get).1;
    CallKeepsFine(c, s0, run, s.device, s.cache, D.Get(c.key), get, now);
    FineLater(c, s0, run, s.device, cache, get.after, put.after);
    FineLater(c, s0, run, s.device, s.cache, now, put.after);
    SetKeepsFine(c, s0, run, s.device, cache, put, get.after);
  }

  lemma DropKeepsFine(c: Config, s0: State, run: seq<Action>, device: C.Status, cache: R.State,
                      drop: R.Link, dropL7: R.Link, now: D.Time)
    requires AllFine(c, s0, run, device, cache, now) && now <= drop.before && InTurn(drop, dropL7)
    ensures AllFine(c, s0, run, device, Drop(c, cache, drop, dropL7), dropL7.after)
  {
    var cache1 := R.Call(cache, D.Delete(c.key), drop).1;
    CallKeepsFine(c, s0, run, device, cache, D.Delete(c.key), drop, now);
    CallKeepsFine(c, s0, run, device, cache1, D.Delete(c.l7Key), dropL7, drop.after);
  }

  /** A writer that invalidates. */
  lemma WriteKeepsFine(c: Config, s0: State, run: seq<Action>, s: State, a: Action, now: D.Time)
    requires c.Valid() && a.Write? && a.Valid(c.key) && s == After(c, s0, run)
    requires AllFine(c, s0, run, s.device, s.cache, now) && now <= a.Start()
    ensures var s' := Step(c, s, a); AllFine(c, s0, run + [a], s'.device, s'.cache, a.at)
  {
    var cache := Drop(c, s.cache, a.drop, a.dropL7);
    DropKeepsFine(c, s0, run, s.device, s.cache, a.drop, a.dropL7, now);
    if Missed(c, s.cache, a.drop, a.dropL7) {
      FineWhenExcused(c, s0, run, a, s.device, cache, a.dropL7.after);
    } else {
      HeardDrops(c, s.cache, a.drop, a.dropL7, now);
    }
  }

  lemma StepKeepsFine(c: Config, s0: State, run: seq<Action>, a: Action, now: D.Time)
    requires var s := After(c, s0, run); AllFine(c, s0, run, s.device, s.cache, now)
    requires c.Valid() && a.Valid(c.key) && now <= a.Start()
    ensures var s' := After(c, s0, run + [a]);
            s' == Step(c, After(c, s0, run), a) && AllFine(c, s0, run + [a], s'.device, s'.cache, a.End())
  {
    var s, all := After(c, s0, run), run + [a];
    assert all[..|all| - 1] == run;
    var s' := Step(c, s, a);
    match a
    case Read(get, put) =>
      ReadKeepsFine(c, s0, run, s, get, put, now);
      FineInLongerRun(c, s0, run, a, s.device, s'.cache, put.after);
    case Write(_, _, _, _) => WriteKeepsFine(c, s0, run, s, a, now);
    case DeleteRule(drop, dropL7, get, put, _, _) =>
      var dropped := s.(cache := Drop(c, s.cache, drop, dropL7));
      DropKeepsFine(c, s0, run, s.device, s.cache, drop, dropL7, now);
      ReadKeepsFine(c, s0, run, dropped, get, put, dropL7.after);
      FineWhenExcused(c, s0, run, a, s.device, s'.cache, put.after);
    case SilentWrite(_, _) => FineWhenExcused(c, s0, run, a, s.device, s.cache, now);
    case Other(op, link) =>
      CallKeepsFine(c, s0, run, s.device, s.cache, op, link, now);
      FineInLongerRun(c, s0, run, a, s.device, s'.cache, link.after);
  }

  /** The run comes after time t and ends by now. */
  ghost predicate Between(run: seq<Action>, t: D.Time, now: D.Time) {
    t <= now && (run != [] ==> t <= run[0].Start() && run[|run| - 1].End() <= now)
  }

  lemma {:induction false} RunKeepsFine(c: Config, s0: State, run: seq<Action>, t: D.Time, now: D.Time)
    requires c.Valid() && AllFine(c, s0, [], s0.device, s0.cache, t) && Ordered(c, run) && Between(run, t, now)
    ensures var s := After(c, s0, run); AllFine(c, s0, run, s.device, s.cache, now)
    decreases |run|
  {
    if run == [] {
      FineLater(c, s0, [], s0.device, s0.cache, t, now);
    } else {
      var front, a := run[..|run| - 1], run[|run| - 1];
      assert run == front + [a] && a.Valid(c.key);
      StartsAfter(c, run, t);
      RunKeepsFine(c, s0, front, t, a.Start());
      StepKeepsFine(c, s0, front, a, a.Start());
      var s := After(c, s0, run);
      FineLater(c, s0, run, s.device, s.cache, a.End(), now);
    }
  }

  lemma StartsAfter(c: Config, run: seq<Action>, t: D.Time)
    requires run != [] && Ordered(c, run) && t <= run[0].Start()
    ensures Between(run[..|run| - 1], t, run[|run| - 1].Start())
  {
    var n := |run| - 1;
    assert run[0].Valid(c.key) && run[0].Start() <= run[0].End();
    if n > 0 {
      assert run[0].End() <= run[n].Start() && run[n - 1].End() <= run[n].Start();
    }
  }

  lemma ExcusedEarlier(c: Config, s0: State, run: seq<Action>, t: D.Time, earlier: D.Time)
    requires ExcusedSince(c, s0, run, t) && earlier <= t
    ensures ExcusedSince(c, s0, run, earlier)
  {
  }

  lemma FineAnswer(c: Config, s0: State, run: seq<Action>, s: State, get: R.Link, put: R.Link)
    requires AllFine(c, s0, run, s.device, s.cache, get.before) && get.Valid()
    ensures ReadStatus(c, s, get, put).0 != Encode(s.device) ==>
              ExcusedSince(c, s0, run, get.before - c.ttl as D.Time)
  {
    var value, k := ReadStatus(c, s, get, put).0, c.key;
    AnswerIsItem(s.cache, k, get);
    if value != Encode(s.device) {
      var fromFallback := k in s.cache.fallback && value == s.cache.fallback[k].value
                          && get.before <= s.cache.fallback[k].expire;
      var expire := if fromFallback then s.cache.fallback[k].expire else s.cache.store[k].expire.value;
      ExcusedEarlier(c, s0, run, expire - c.ttl as D.Time, get.before - c.ttl as D.Time);
    }
  }

  /** A status that differs from the device's own has an excuse within the last ttl seconds:
      a writer that never invalidates, delete_rule, or an invalidation that was missed. */
  lemma StaleOnlyAfterMissedInvalidation(c: Config, s0: State, run: seq<Action>, t: D.Time, get: R.Link, put: R.Link)
    requires c.Valid() && AllFine(c, s0, [], s0.device, s0.cache, t)
    requires Ordered(c, run) && Between(run, t, get.before) && get.Valid()
    ensures var s := After(c, s0, run);
            ReadStatus(c, s, get, put).0 != Encode(s.device) ==>
              ExcusedSince(c, s0, run, get.before - c.ttl as D.Time)
  {
    RunKeepsFine(c, s0, run, t, get.before);
    FineAnswer(c, s0, run, After(c, s0, run), get, put);
  }

  /** A cache without the key is fine to begin with. */
  lemma EmptyIsFine(c: Config, s0: State, t: D.Time)
    requires c.key !in s0.cache.fallback && c.key !in s0.cache.store
    ensures AllFine(c, s0, [], s0.device, s0.cache, t)
  {
  }

  // ---------- Exactly when reads are fresh ----------

  /** The server holds a wrong status that it may serve at time t or later. */
  predicate Exposed(c: Config, s: State, t: D.Time) {
    && c.key in s.cache.store && !Harmless(s.device, s.cache.store[c.key].value)
    && (s.cache.store[c.key].expire.Some? ==> !Doomed(s.cache, s.cache.store[c.key].expire.value, t))
  }

  /** Every read that begins at time t or later is fresh. */
  ghost predicate NextReadFresh(c: Config, s: State, t: D.Time) {
    forall get: R.Link, put: R.Link :: get.Valid() && t <= get.before ==>
      ReadStatus(c, s, get, put).0 == Encode(s.device)
  }

  /** No call of the run changes the device behind the cache's back. */
  ghost predicate NoExcuse(c: Config, s: State, run: seq<Action>) {
    forall i :: 0 <= i < |run| ==> !Excuses(c, After(c, s, run[..i]), run[i])
  }

  /** Reads are fresh from time t on up to the next excuse. */
  ghost predicate StaysFresh(c: Config, s: State, t: D.Time) {
    forall run, now :: Ordered(c, run) && Between(run, t, now) && NoExcuse(c, s, run) ==>
      NextReadFresh(c, After(c, s, run), now)
  }

  /** A moment at which an exposed item is served: late enough for an open circuit to let
      the call through, and early enough for the item. */
  function ServingTime(c: Config, s: State, t: D.Time): D.Time
    requires Exposed(c, s, t)
  {
    match s.cache.store[c.key].expire
    case Some(expire) => expire
    case None => if t > s.cache.openUntil then t else s.cache.openUntil + 1.0
  }

  lemma ExposedIsServed(c: Config, s: State, t: D.Time)
    requires Exposed(c, s, t) && c.ttl > 0
    ensures !NextReadFresh(c, s, t)
  {
    var get := Moment(ServingTime(c, s, t), R.Answered);
    var put := get;
    assert get.Valid() && t <= get.before;
    assert !R.CircuitOpen(s.cache.fails, s.cache.openUntil, get.before);
    assert s.cache.store - get.lost == s.cache.store;
    assert ReadStatus(c, s, get, put).0 == s.cache.store[c.key].value;
  }

  /** With the key gone from the fallback, every read from time t on is fresh if and only
      if the server holds no wrong status that it may still serve. */
  lemma NextReadExactly(c: Config, s: State, t: D.Time)
    requires c.ttl > 0 && c.key !in s.cache.fallback
    ensures NextReadFresh(c, s, t) <==> !Exposed(c, s, t)
  {
    if Exposed(c, s, t) {
      ExposedIsServed(c, s, t);
    } else {
      forall get: R.Link, put: R.Link | get.Valid() && t <= get.before
        ensures ReadStatus(c, s, get, put).0 == Encode(s.device)
      {
        AnswerIsItem(s.cache, c.key, get);
      }
    }
  }

  lemma NoExcuseSince(c: Config, s: State, run: seq<Action>, t: D.Time)
    requires NoExcuse(c, s, run)
    ensures !ExcusedSince(c, s, run, t)
  {
  }

  /** And so is every read of any later run up to the next excuse. */
  lemma StaysFreshExactly(c: Config, s: State, t: D.Time)
    requires c.Valid() && c.ttl > 0 && c.key !in s.cache.fallback && InBounds(c, s.cache, t)
    ensures StaysFresh(c, s, t) <==> !Exposed(c, s, t)
  {
    if Exposed(c, s, t) {
      ExposedIsServed(c, s, t);
      assert After(c, s, []) == s && Between([], t, t) && Ordered(c, []) && NoExcuse(c, s, []);
    } else {
      assert AllFine(c, s, [], s.device, s.cache, t);
      forall run, now | Ordered(c, run) && Between(run, t, now) && NoExcuse(c, s, run)
        ensures NextReadFresh(c, After(c, s, run), now)
      {
        FreshAfter(c, s, run, t, now);
      }
    }
  }

  lemma FreshAfter(c: Config, s: State, run: seq<Action>, t: D.Time, now: D.Time)
    requires c.Valid() && AllFine(c, s, [], s.device, s.cache, t)
    requires Ordered(c, run) && Between(run, t, now) && NoExcuse(c, s, run)
    ensures NextReadFresh(c, After(c, s, run), now)
  {
    var s' := After(c, s, run);
    forall get: R.Link, put: R.Link | get.Valid() && now <= get.before
      ensures ReadStatus(c, s', get, put).0 == Encode(s'.device)
    {
      StaleOnlyAfterMissedInvalidation(c, s, run, t, get, put);
      NoExcuseSince(c, s, run, get.before - c.ttl as D.Time);
    }
  }

  /** Which item a writer leaves exposed, told from the state before it and the fates of its
      two deletes: with a ttl of at most 30 seconds, one it misses, that is not lost on the
      way, not expired, and not the new status already. */
  lemma WriteExposesExactly(c: Config, s: State, w: Action, now: D.Time)
    requires c.Valid() && w.Write? && w.Valid(c.key) && now <= w.Start() && InBounds(c, s.cache, now)
    requires c.ttl as D.Time <= R.RESET_SECS
    ensures Exposed(c, Step(c, s, w), w.at)
       <==> && Missed(c, s.cache, w.drop, w.dropL7)
            && c.key in s.cache.store - (w.drop.lost + w.dropL7.lost)
            && w.at <= s.cache.store[c.key].expire.value
            && !Harmless(w.device, s.cache.store[c.key].value)
  {
    if Missed(c, s.cache, w.drop, w.dropL7) {
      MissedLeaves(c, s.cache, w.drop, w.dropL7);
    } else {
      HeardDrops(c, s.cache, w.drop, w.dropL7, now);
    }
  }

  /** A missed invalidation leaves the server's store as the losses leave it, and the
      circuit closed. */
  lemma MissedLeaves(c: Config, s: R.State, drop: R.Link, dropL7: R.Link)
    requires c.Valid() && c.ttl as D.Time <= R.RESET_SECS && Missed(c, s, drop, dropL7)
    ensures var s' := Drop(c, s, drop, dropL7);
            && s'.fails < R.THRESHOLD
            && (c.key in s'.store <==> c.key in s.store - (drop.lost + dropL7.lost))
            && (c.key in s'.store ==> s'.store[c.key] == s.store[c.key])
  {
    var s1 := R.Call(s, D.Delete(c.key), drop).1;
    assert s1.fails == s.fails + 1 && s1.store == s.store - drop.lost;
    Breaker(s1, D.Delete(c.l7Key), dropL7);
    SecondDelete(c, s1, dropL7);
  }

  lemma SecondDelete(c: Config, s: R.State, link: R.Link)
    requires c.Valid() && s.fails < R.THRESHOLD
    ensures var s' := R.Call(s, D.Delete(c.l7Key), link).1;
            && (c.key in s'.store <==> c.key in s.store - link.lost)
            && (c.key in s'.store ==> s'.store[c.key] == s.store[c.key])
            && (R.Exchange(s.store, D.Delete(c.l7Key), link).0.Some? <==> link.fate.Answered?)
  {
  }

  /** From a writer that invalidates to the next excuse all reads are fresh, if and only if
      it does not miss an item that is still there, still valid and not the new status. */
  lemma FreshAfterWriteExactly(c: Config, s: State, w: Action, now: D.Time)
    requires c.Valid() && w.Write? && w.Valid(c.key) && now <= w.Start() && InBounds(c, s.cache, now)
    requires c.ttl > 0 && c.ttl as D.Time <= R.RESET_SECS
    ensures StaysFresh(c, Step(c, s, w), w.at)
       <==> !(&& Missed(c, s.cache, w.drop, w.dropL7)
              && c.key in s.cache.store - (w.drop.lost + w.dropL7.lost)
              && w.at <= s.cache.store[c.key].expire.value
              && !Harmless(w.device, s.cache.store[c.key].value))
  {
    var s1 := R.Call(s.cache, D.Delete(c.key), w.drop).1;
    FirstDelete(c, s.cache, w.drop, now);
    UnwrittenItems(s1, D.Delete(c.l7Key), w.dropL7, c.key);
    CallKeepsBounds(c, s.cache, D.Delete(c.key), w.drop, now);
    CallKeepsBounds(c, s1, D.Delete(c.l7Key), w.dropL7, w.drop.after);
    WriteExposesExactly(c, s, w, now);
    StaysFreshExactly(c, Step(c, s, w), w.at);
  }

  /** Whatever the cache held before and however long the ttl is, a first delete that is
      attempted and not refused makes all reads up to the next excuse fresh. */
  lemma ReadAfterHeardInvalidationIsFresh(c: Config, s: State, w: Action)
    requires c.Valid() && c.ttl > 0 && w.Write? && w.Valid(c.key)
    requires !R.CircuitOpen(s.cache.fails, s.cache.openUntil, w.drop.before) && !w.drop.fate.Refused?
    ensures StaysFresh(c, Step(c, s, w), w.at)
  {
    var s1 := R.Call(s.cache, D.Delete(c.key), w.drop).1;
    assert c.key !in s1.fallback && c.key !in s1.store;
    UnwrittenItems(s1, D.Delete(c.l7Key), w.dropL7, c.key);
    StaysFreshExactly(c, Step(c, s, w), w.at);
  }

  /** Only with a ttl above 30 seconds can an open circuit hide an item that is served
      later: exactly one that expires after the circuit lets a call through again. */
  lemma OpenCircuitExposesExactly(c: Config, s: State, w: Action)
    requires c.Valid() && w.Write? && w.Valid(c.key) && w.dropL7.before <= s.cache.openUntil
    requires s.cache.fails >= R.THRESHOLD
    ensures Exposed(c, Step(c, s, w), w.at)
       <==> && c.key in s.cache.store && !Harmless(w.device, s.cache.store[c.key].value)
            && (s.cache.store[c.key].expire.Some? ==>
                  && w.at <= s.cache.store[c.key].expire.value
                  && s.cache.openUntil < s.cache.store[c.key].expire.value)
  {
    var s1 := R.Call(s.cache, D.Delete(c.key), w.drop).1;
    Breaker(s.cache, D.Delete(c.key), w.drop);
    Breaker(s1, D.Delete(c.l7Key), w.dropL7);
  }

  // ---------- An invalidation that is missed ----------

  function Moment(t: D.Time, fate: R.Fate): R.Link { R.Link(t, t, t, {}, fate, R.Answered) }

  /** A status is cached at second 1; at second 2 a rule is added, but the delete does not
      reach the server; the read at second 3 shows the status before the rule. */
  lemma MissedDeleteServesOldStatus(c: Config, before: C.Status, after: C.Status)
    requires c.Valid() && c.ttl >= 5
    ensures var s := State(before, R.State(0, 0.0, map[], map[]));
            var read := Read(Moment(1.0, R.Answered), Moment(1.0, R.Answered));
            var write := Write(Moment(2.0, R.Refused), Moment(2.0, R.Answered), 2.0, after);
            && Ordered(c, [read, write])
            && After(c, s, [read, write]).device == after
            && forall put :: ReadStatus(c, After(c, s, [read, write]), Moment(3.0, R.Answered), put).0 == Encode(before)
  {
    var s := State(before, R.State(0, 0.0, map[], map[]));
    var read := Read(Moment(1.0, R.Answered), Moment(1.0, R.Answered));
    var write := Write(Moment(2.0, R.Refused), Moment(2.0, R.Answered), 2.0, after);
    var run := [read, write];
    assert run[..1] == [read] && [read][..0] == [];
    var s1 := Step(c, s, read);
    assert After(c, s, run) == Step(c, After(c, s, [read]), write) == Step(c, s1, write);
    ReadCaches(c, before);
    MissedDelete(c, s1, after);
  }

  lemma ReadCaches(c: Config, device: C.Status)
    requires c.ttl >= 5
    ensures var s := State(device, R.State(0, 0.0, map[], map[]));
            var s' := ReadStatus(c, s, Moment(1.0, R.Answered), Moment(1.0, R.Answered)).1;
            && s'.cache.fails == 0
            && s'.cache.store == map[c.key := R.Item(Some(1.0 + c.ttl as D.Time), Encode(device))]
  {
    var s := State(device, R.State(0, 0.0, map[], map[]));
    var link := Moment(1.0, R.Answered);
    assert s.cache.store - link.lost == map[];
    var (r, cache) := R.Call(s.cache, D.Get(c.key), link);
    assert r == D.Got(D.NoneValue) && cache == s.cache;
  }

  lemma MissedDelete(c: Config, s: State, after: C.Status)
    requires c.Valid() && s.cache.fails == 0 && c.key in s.cache.store
    requires s.cache.store[c.key].expire.Some? && s.cache.store[c.key].expire.value >= 3.0
    requires s.cache.store[c.key].value != D.NoneValue && c.ttl > 0
    ensures var s' := Step(c, s, Write(Moment(2.0, R.Refused), Moment(2.0, R.Answered), 2.0, after));
            forall put :: ReadStatus(c, s', Moment(3.0, R.Answered), put).0 == s.cache.store[c.key].value
  {
    var refused, link := Moment(2.0, R.Refused), Moment(2.0, R.Answered);
    var s1 := R.Call(s.cache, D.Delete(c.key), refused).1;
    assert s1.fails == 1 && s1.store == s.cache.store - {};
    var s2 := R.Call(s1, D.Delete(c.l7Key), link).1;
    assert s2.fails == 0 && c.key in s2.store && s2.store[c.key] == s.cache.store[c.key];
  }

  /** Without a ttl every read shows the device, and the cache is not asked. */
  lemma NoTtlReadsDevice(c: Config, s: State, get: R.Link, put: R.Link)
    requires c.ttl <= 0
    ensures ReadStatus(c, s, get, put) == (Encode(s.device), s)
  {
  }

  /** A status read from the device and set with an answer is shown by every read the server
      answers within the ttl, without asking the device. */
  lemma StatusIsKeptOnServer(c: Config, s: State, put: R.Link, get: R.Link, device: C.Status)
    requires c.ttl > 0 && put.Valid() && get.Valid() && put.after <= get.before
    requires !R.CircuitOpen(s.cache.fails, s.cache.openUntil, put.before) && put.fate.Answered?
    requires get.fate.Answered? && c.key !in get.lost && get.at <= put.at + c.ttl as D.Time
    ensures var cached := s.(cache := R.Call(s.cache, D.Set(c.key, Encode(s.device), c.ttl), put).1);
            ReadStatus(c, cached.(device := device), get, put).0 == Encode(s.device)
  {
    var cache := R.Call(s.cache, D.Set(c.key, Encode(s.device), c.ttl), put).1;
    assert cache.fails == 0 && c.key in cache.store;
    assert cache.store[c.key] == R.Item(Some(put.at + c.ttl as D.Time), Encode(s.device));
    assert c.key in cache.store - get.lost;
  }
}
