/** The failover monitor: each run checks two data centres and moves their traffic. */
module Failover {
  import opened Sequences

  const THRESHOLD: nat := 3

  datatype Dc = DC1 | DC2

  function Other(d: Dc): Dc { if d.DC1? then DC2 else DC1 }

  /** The failures in a row of one data centre, and where its traffic goes. */
  datatype Site = Site(fails: nat, active: Dc)

  datatype State = State(dc1: Site, dc2: Site)

  function Initial(): State { State(Site(0, DC1), Site(0, DC2)) }

  /** What a check does to the DNS of a data centre: nothing, or point it somewhere. */
  datatype Change = NoChange | PointTo(target: Dc)

  function CheckSite(home: Dc, s: Site, up: bool): (Site, Change) {
    if up then (Site(0, home), if s.active != home then PointTo(home) else NoChange)
    else if s.fails + 1 >= THRESHOLD && s.active == home then (Site(s.fails + 1, Other(home)), PointTo(Other(home)))
    else (Site(s.fails + 1, s.active), NoChange)
  }

  /** The state file, if there is one. */
  class Monitor {
    var file: Option<State>

    constructor ()
      ensures file == None
    {
      file := None;
    }

    function Load(): State
      reads this
    {
      if file.Some? then file.value else Initial()
    }

    /** One run of the script, given the two health results. */
    method RunOnce(dc1Up: bool, dc2Up: bool) returns (change1: Change, change2: Change)
      modifies this
      ensures file.Some?
      ensures (file.value.dc1, change1) == CheckSite(DC1, old(Load()).dc1, dc1Up)
      ensures (file.value.dc2, change2) == CheckSite(DC2, old(Load()).dc2, dc2Up)
    {
      var state := Load();
      var fails1, active1 := state.dc1.fails, state.dc1.active;
      change1 := NoChange;
      if dc1Up {
        if active1 != DC1 {
          change1 := PointTo(DC1);
          active1 := DC1;
        }
        fails1 := 0;
      } else {
        fails1 := fails1 + 1;
        if fails1 >= THRESHOLD && active1 == DC1 {
          change1 := PointTo(DC2);
          active1 := DC2;
        }
      }
      var fails2, active2 := state.dc2.fails, state.dc2.active;
      change2 := NoChange;
      if dc2Up {
        if active2 != DC2 {
          change2 := PointTo(DC2);
          active2 := DC2;
        }
        fails2 := 0;
      } else {
        fails2 := fails2 + 1;
        if fails2 >= THRESHOLD && active2 == DC2 {
          change2 := PointTo(DC1);
          active2 := DC1;
        }
      }
      file := Some(State(Site(fails1, active1), Site(fails2, active2)));
    }
  }

  // ---------- Histories of one data centre ----------

  function SiteAfter(home: Dc, history: seq<bool>): Site {
    if history == [] then Site(0, home)
    else CheckSite(home, SiteAfter(home, history[..|history| - 1]), history[|history| - 1]).0
  }

  /** The targets the DNS was pointed to, in order. */
  function Changes(home: Dc, history: seq<bool>): seq<Dc> {
    if history == [] then []
    else
      var n := |history| - 1;
      var c := CheckSite(home, SiteAfter(home, history[..n]), history[n]).1;
      Changes(home, history[..n]) + if c.PointTo? then [c.target] else []
  }

  /** The last n checks failed, and the one before them, if any, did not. */
  ghost predicate TrailingFailures(history: seq<bool>, n: nat) {
    && n <= |history|
    && (forall i :: |history| - n <= i < |history| ==> !history[i])
    && (n < |history| ==> history[|history| - n - 1])
  }

  /** The counter is the length of the trailing run of failures, and the traffic is away
      from home exactly while that run is at least three long. */
  lemma {:induction false} CounterIsTrailingRun(home: Dc, history: seq<bool>)
    ensures var s := SiteAfter(home, history);
            && TrailingFailures(history, s.fails)
            && (s.active != home <==> s.fails >= 3)
            && s.active in {home, Other(home)}
  {
    if history != [] {
      var n := |history| - 1;
      CounterIsTrailingRun(home, history[..n]);
    }
  }

  function Count(xs: seq<bool>, v: bool): nat {
    if xs == [] then 0 else Count(xs[..|xs| - 1], v) + if xs[|xs| - 1] == v then 1 else 0
  }

  function CountDc(xs: seq<Dc>, v: Dc): nat {
    if xs == [] then 0 else CountDc(xs[..|xs| - 1], v) + if xs[|xs| - 1] == v then 1 else 0
  }

  /** Failovers and failbacks take turns, beginning with a failover, and the traffic is
      where the last of them put it. */
  lemma {:induction false} ChangesAlternate(home: Dc, history: seq<bool>)
    ensures var cs, s := Changes(home, history), SiteAfter(home, history);
            && (forall i :: 0 <= i < |cs| ==> cs[i] == if i % 2 == 0 then Other(home) else home)
            && s.active == (if |cs| % 2 == 0 then home else Other(home))
  {
    if history != [] {
      ChangesAlternate(home, history[..|history| - 1]);
    }
  }

  /** Three failed checks are spent on every failover, and the pending ones count too. */
  lemma {:induction false} FailoversCostThreeFailures(home: Dc, history: seq<bool>)
    ensures var s := SiteAfter(home, history);
            3 * CountDc(Changes(home, history), Other(home))
              + (if s.fails < THRESHOLD then s.fails else s.fails - THRESHOLD)
              <= Count(history, false)
  {
    if history != [] {
      var n := |history| - 1;
      var cs := Changes(home, history[..n]);
      var c := CheckSite(home, SiteAfter(home, history[..n]), history[n]).1;
      FailoversCostThreeFailures(home, history[..n]);
      CounterIsTrailingRun(home, history[..n]);
      if c.PointTo? {
        assert (cs + [c.target])[..|cs|] == cs;
      } else {
        assert cs + [] == cs;
      }
    }
  }

  /** A run of the monitor moves each data centre's history on by its own result alone. */
  lemma {:induction false} SitesAreIndependent(ups: seq<(bool, bool)>)
    ensures var t := StateAfter(ups);
            && t.dc1 == SiteAfter(DC1, seq(|ups|, i requires 0 <= i < |ups| => ups[i].0))
            && t.dc2 == SiteAfter(DC2, seq(|ups|, i requires 0 <= i < |ups| => ups[i].1))
    decreases |ups|
  {
    if ups != [] {
      var n := |ups| - 1;
      SitesAreIndependent(ups[..n]);
      var a := seq(|ups|, i requires 0 <= i < |ups| => ups[i].0);
      var b := seq(|ups|, i requires 0 <= i < |ups| => ups[i].1);
      assert a[..n] == seq(n, i requires 0 <= i < n => ups[..n][i].0);
      assert b[..n] == seq(n, i requires 0 <= i < n => ups[..n][i].1);
    }
  }

  function StateAfter(ups: seq<(bool, bool)>): State
    decreases |ups|
  {
    if ups == [] then Initial()
    else
      var t, up := StateAfter(ups[..|ups| - 1]), ups[|ups| - 1];
      State(CheckSite(DC1, t.dc1, up.0).0, CheckSite(DC2, t.dc2, up.1).0)
  }
}
