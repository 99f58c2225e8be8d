/** The firewall manager's cache of device states, and which calls make it stale. */
module StatusCache {
  import opened Sequences

  type Server = string

  /** Readings of `time.monotonic()`, in seconds. */
  type Time = real

  datatype Status = Status(description: string)

  datatype Cached = Cached(stamp: Time, status: Status)

  /** The manager's own dictionary, or a DictCache, whose expiry is inclusive. */
  datatype Backend = LocalDict | SharedDict

  datatype Config = Config(backend: Backend, ttl: int)

  predicate Fresh(c: Config, e: Cached, now: Time) {
    match c.backend
    case LocalDict => now - e.stamp < c.ttl as Time
    case SharedDict => now <= e.stamp + c.ttl as Time
  }

  /** One server: what the device is set to, and what the cache holds of it. */
  datatype State = State(device: Status, cache: Option<Cached>)

  /** The calls of the manager on a server. `Write` stands for every writer that drops the
      cache first (enable, disable, add_rule, block_ip, unblock_ip, port forwards,
      apply_l7_protection), `SilentWrite` for those that never do (services, toggle, rich
      rules, DNS, restore, ...). A writer that fails leaves the device as it is. */
  datatype Action =
    | Read(now: Time, stamp: Time)
    | Write(at: Time, device: Status)
    | DeleteRule(now: Time, stamp: Time, at: Time, device: Status)
    | SilentWrite(at: Time, device: Status)
  {
    function Start(): Time {
      match this
      case Read(now, _) => now
      case DeleteRule(now, _, _, _) => now
      case _ => at
    }

    function End(): Time { if Read? then stamp else at }

    predicate Valid() { Read? || DeleteRule? ==> now <= stamp && (DeleteRule? ==> stamp <= at) }
  }

  /** `get_status`: the cached state while it is fresh, else the device's, which is cached. */
  function ReadStatus(c: Config, s: State, now: Time, stamp: Time): (Status, State) {
    if c.ttl > 0 && s.cache.Some? && Fresh(c, s.cache.value, now) then (s.cache.value.status, s)
    else (s.device, if c.ttl > 0 then s.(cache := Some(Cached(stamp, s.device))) else s)
  }

  function Step(c: Config, s: State, a: Action): State {
    match a
    case Read(now, stamp) => ReadStatus(c, s, now, stamp).1
    case Write(_, device) => State(device, None)
    case DeleteRule(now, stamp, _, device) => ReadStatus(c, s.(cache := None), now, stamp).1.(device := device)
    case SilentWrite(_, device) => s.(device := device)
  }

  /** The remote devices. */
  class Network {
    var devices: map<Server, Status>

    constructor (devices: map<Server, Status>)
      ensures this.devices == devices
    {
      this.devices := devices;
    }
  }

  class Manager {
    const config: Config
    const network: Network
    var statusCache: map<Server, Cached>

    constructor (config: Config, network: Network)
      ensures this.config == config && this.network == network && statusCache == map[]
    {
      this.config := config;
      this.network := network;
      statusCache := map[];
    }

    function StateOf(server: Server): State
      requires server in network.devices
      reads this, network
    {
      State(network.devices[server], if server in statusCache then Some(statusCache[server]) else None)
    }

    method InvalidateCache(server: Server)
      modifies this
      ensures statusCache == old(statusCache) - {server}
    {
      statusCache := statusCache - {server};
    }

    method GetStatus(server: Server, now: Time, stamp: Time) returns (status: Status)
      requires server in network.devices
      modifies this
      ensures (status, StateOf(server)) == ReadStatus(config, old(StateOf(server)), now, stamp)
      ensures forall x :: x in network.devices && x != server ==> StateOf(x) == old(StateOf(x))
    {
      if config.ttl > 0 && server in statusCache && Fresh(config, statusCache[server], now) {
        return statusCache[server].status;
      }
      status := network.devices[server];
      if config.ttl > 0 {
        statusCache := statusCache[server := Cached(stamp, status)];
      }
    }

    /** add_rule, block_ip and the other writers that drop the cache before they write. */
    method WriteDevice(server: Server, device: Status, ghost at: Time)
      requires server in network.devices
      modifies this, network
      ensures network.devices.Keys == old(network.devices.Keys)
      ensures StateOf(server) == Step(config, old(StateOf(server)), Write(at, device))
      ensures forall x :: x in network.devices && x != server ==> StateOf(x) == old(StateOf(x))
    {
      InvalidateCache(server);
      network.devices := network.devices[server := device];
    }

    /** delete_rule asks for the status, and so fills the cache, before it deletes. */
    method DeleteRuleAt(server: Server, device: Status, now: Time, stamp: Time, ghost at: Time)
      requires server in network.devices
      modifies this, network
      ensures network.devices.Keys == old(network.devices.Keys)
      ensures StateOf(server) == Step(config, old(StateOf(server)), DeleteRule(now, stamp, at, device))
      ensures forall x :: x in network.devices && x != server ==> StateOf(x) == old(StateOf(x))
    {
      InvalidateCache(server);
      var status := GetStatus(server, now, stamp);
      network.devices := network.devices[server := device];
    }

    /** add_service, toggle_rule and the other writers that leave the cache alone. */
    method WriteSilently(server: Server, device: Status, ghost at: Time)
      requires server in network.devices
      modifies network
      ensures network.devices.Keys == old(network.devices.Keys)
      ensures StateOf(server) == Step(config, old(StateOf(server)), SilentWrite(at, device))
      ensures forall x :: x in network.devices && x != server ==> StateOf(x) == old(StateOf(x))
    {
      network.devices := network.devices[server := device];
    }
  }

  // ---------- Freshness over runs ----------

  function Run(c: Config, s: State, run: seq<Action>): State
    decreases |run|
  {
    if run == [] then s else Step(c, Run(c, s, run[..|run| - 1]), run[|run| - 1])
  }

  ghost predicate Ordered(run: seq<Action>) {
    && (forall i :: 0 <= i < |run| ==> run[i].Valid())
    && (forall i, j :: 0 <= i < j < |run| ==> run[i].End() <= run[j].Start())
  }

  /** A call that changes the device behind the cache's back. */
  predicate Unannounced(a: Action) { a.DeleteRule? || a.SilentWrite? }

  /** Some unannounced write of the run happened at time t or later. */
  ghost predicate WrittenSince(run: seq<Action>, t: Time) {
    exists i :: 0 <= i < |run| && Unannounced(run[i]) && t <= run[i].at
  }

  /** What is cached is the device's state, or was overtaken by an unannounced write. */
  ghost predicate Explained(s: State, run: seq<Action>) {
    s.cache.Some? ==> s.cache.value.status == s.device || WrittenSince(run, s.cache.value.stamp)
  }

  /** No cached state is stamped later than the end of the last call. */
  ghost predicate StampedBy(s: State, t: Time) { s.cache.Some? ==> s.cache.value.stamp <= t }

  lemma StepExplained(c: Config, s: State, run: seq<Action>, a: Action)
    requires Explained(s, run) && a.Valid() && StampedBy(s, a.Start())
    ensures Explained(Step(c, s, a), run + [a]) && StampedBy(Step(c, s, a), a.End())
  {
    var all, s' := run + [a], Step(c, s, a);
    assert all[|run|] == a;
    if s.cache.Some? && WrittenSince(run, s.cache.value.stamp) {
      var i :| 0 <= i < |run| && Unannounced(run[i]) && s.cache.value.stamp <= run[i].at;
      assert all[i] == run[i];
    }
    if s'.cache.Some? && Unannounced(a) {
      assert WrittenSince(all, s'.cache.value.stamp) by { assert Unannounced(all[|run|]); }
    }
  }

  lemma {:induction false} RunExplained(c: Config, s: State, run: seq<Action>)
    requires s.cache.None? && Ordered(run)
    ensures Explained(Run(c, s, run), run)
    ensures run != [] ==> StampedBy(Run(c, s, run), run[|run| - 1].End())
    ensures run == [] ==> Run(c, s, run).cache.None?
    decreases |run|
  {
    if run != [] {
      var front, a := run[..|run| - 1], run[|run| - 1];
      assert run == front + [a];
      RunExplained(c, s, front);
      StepExplained(c, Run(c, s, front), front, a);
    }
  }

  /** A status that differs from the device's own is at most one ttl old: a delete_rule or
      a writer that never invalidates ran within the last ttl seconds. */
  lemma StaleOnlyAfterUnannouncedWrite(c: Config, s: State, run: seq<Action>, now: Time, stamp: Time)
    requires s.cache.None? && Ordered(run) && (run != [] ==> run[|run| - 1].End() <= now)
    ensures var s' := Run(c, s, run);
            var r := ReadStatus(c, s', now, stamp).0;
            r != s'.device ==>
              exists i :: 0 <= i < |run| && Unannounced(run[i]) && now - run[i].at <= c.ttl as Time
                       && (c.backend.LocalDict? ==> now - run[i].at < c.ttl as Time)
  {
    RunExplained(c, s, run);
    var s' := Run(c, s, run);
    if ReadStatus(c, s', now, stamp).0 != s'.device {
      var i :| 0 <= i < |run| && Unannounced(run[i]) && s'.cache.value.stamp <= run[i].at;
      assert now - run[i].at <= now - s'.cache.value.stamp;
    }
  }

  lemma {:induction false} RunConcat(c: Config, s: State, a: seq<Action>, b: seq<Action>)
    ensures Run(c, s, a + b) == Run(c, Run(c, s, a), b)
    decreases |b|
  {
    if b == [] {
      assert a + b == a;
    } else {
      var front := b[..|b| - 1];
      assert (a + b)[..|a + b| - 1] == a + front;
      RunConcat(c, s, a, front);
    }
  }

  /** Nothing is cached but what the device is set to. */
  ghost predicate Current(s: State) { s.cache.Some? ==> s.cache.value.status == s.device }

  lemma {:induction false} AnnouncedKeepsCurrent(c: Config, s: State, run: seq<Action>)
    requires Current(s) && forall i :: 0 <= i < |run| ==> !Unannounced(run[i])
    ensures Current(Run(c, s, run))
    decreases |run|
  {
    if run != [] {
      AnnouncedKeepsCurrent(c, s, run[..|run| - 1]);
    }
  }

  /** From a writer that invalidates up to the next unannounced write, whatever came before
      and whatever the clock says, every read is fresh. */
  lemma ReadAfterInvalidatingWriteIsFresh(c: Config, s: State, run: seq<Action>, w: Action, later: seq<Action>,
                                          now: Time, stamp: Time)
    requires w.Write? && forall i :: 0 <= i < |later| ==> !Unannounced(later[i])
    ensures var s' := Run(c, s, run + [w] + later);
            ReadStatus(c, s', now, stamp).0 == s'.device
  {
    var all := run + [w];
    assert all[..|all| - 1] == run;
    RunConcat(c, s, all, later);
    AnnouncedKeepsCurrent(c, Run(c, s, all), later);
  }

  /** A read while the cached state is fresh. */
  predicate Within(c: Config, a: Action, cached: Cached) { a.Read? && Fresh(c, cached, a.now) }

  lemma {:induction false} ReadsLeaveCache(c: Config, s: State, asked: seq<Action>)
    requires s.cache.Some? && forall i :: 0 <= i < |asked| ==> Within(c, asked[i], s.cache.value)
    ensures Run(c, s, asked) == s
    decreases |asked|
  {
    if asked != [] {
      ReadsLeaveCache(c, s, asked[..|asked| - 1]);
    }
  }

  /** After delete_rule every read within the ttl still shows the state before it, which is
      wrong exactly when the deletion changed something. */
  lemma ReadsAfterDeleteRuleAreOld(c: Config, s: State, a: Action, asked: seq<Action>, now: Time, stamp: Time)
    requires a.DeleteRule? && c.ttl > 0 && Fresh(c, Cached(a.stamp, s.device), now)
    requires forall i :: 0 <= i < |asked| ==> Within(c, asked[i], Cached(a.stamp, s.device))
    ensures var s' := Run(c, Step(c, s, a), asked);
            && ReadStatus(c, s', now, stamp).0 == s.device
            && (ReadStatus(c, s', now, stamp).0 == s'.device <==> a.device == s.device)
  {
    ReadsLeaveCache(c, Step(c, s, a), asked);
  }

  /** After a writer that never invalidates every read while the cached state is fresh shows
      it, which is wrong exactly when the writer made the device differ from it; the first
      read after that shows the device. */
  lemma ReadsAfterSilentWriteExactly(c: Config, s: State, a: Action, asked: seq<Action>, now: Time, stamp: Time)
    requires a.SilentWrite? && c.ttl > 0 && s.cache.Some?
    requires forall i :: 0 <= i < |asked| ==> Within(c, asked[i], s.cache.value)
    ensures var s' := Run(c, Step(c, s, a), asked);
            && s'.device == a.device
            && ReadStatus(c, s', now, stamp).0
            == (if Fresh(c, s.cache.value, now) then s.cache.value.status else a.device)
            && (ReadStatus(c, s', now, stamp).0 == s'.device <==>
                  !Fresh(c, s.cache.value, now) || a.device == s.cache.value.status)
  {
    ReadsLeaveCache(c, Step(c, s, a), asked);
  }

  /** Without a ttl nothing is ever cached, and every read shows the device. */
  lemma {:induction false} NoTtlNoCache(c: Config, s: State, run: seq<Action>, now: Time, stamp: Time)
    requires c.ttl <= 0 && s.cache.None?
    ensures var s' := Run(c, s, run); s'.cache.None? && ReadStatus(c, s', now, stamp) == (s'.device, s')
    decreases |run|
  {
    if run != [] {
      NoTtlNoCache(c, s, run[..|run| - 1], now, stamp);
    }
  }

  /** For how long a status is kept: read at `stamp`, it is shown for less than the ttl by the
      manager's own dictionary, and up to the ttl by a DictCache, whatever a silent writer
      does meanwhile; after that the device is asked again. */
  lemma StatusIsKeptForItsTtl(c: Config, s: State, at: Time, device: Status, asked: Time, stamp: Time,
                              now: Time, again: Time)
    requires c.ttl > 0 && s.cache.None?
    ensures var s' := Run(c, s, [Read(asked, stamp), SilentWrite(at, device)]);
            && s'.device == device
            && ReadStatus(c, s', now, again).0
            == if (if c.backend == LocalDict then now - stamp < c.ttl as real else now <= stamp + c.ttl as real)
               then s.device else device
  {
    var run := [Read(asked, stamp), SilentWrite(at, device)];
    assert run[..1] == [Read(asked, stamp)] && run[..1][..0] == [];
    assert Run(c, s, run[..1]) == Step(c, s, run[0]);
  }
}
