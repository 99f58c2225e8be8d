/** The background scheduler: one loop that runs four jobs, each at its interval. */
module Scheduler {

  /** Readings of `time.time()`, in seconds. */
  type Time = real

  const METRIC_INTERVAL: Time := 300.0
  const ALERT_INTERVAL: Time := 120.0
  const BACKUP_INTERVAL: Time := 60.0
  const TASK_INTERVAL: Time := 60.0

  /** The readings at which a job runs, given when it ran last. */
  function RunTimes(readings: seq<Time>, interval: Time, last: Time): seq<Time>
    decreases |readings|
  {
    if readings == [] then []
    else if readings[0] - last >= interval then [readings[0]] + RunTimes(readings[1..], interval, readings[0])
    else RunTimes(readings[1..], interval, last)
  }

  /** After i rounds a job has run at the times `done`, the last time at `last`. */
  ghost predicate Done(readings: seq<Time>, i: nat, interval: Time, last: Time, done: seq<Time>)
    requires i <= |readings|
  {
    done + RunTimes(readings[i..], interval, last) == RunTimes(readings, interval, 0.0)
  }

  lemma Round(readings: seq<Time>, i: nat, interval: Time, last: Time, done: seq<Time>)
    requires i < |readings| && Done(readings, i, interval, last, done)
    ensures if readings[i] - last >= interval then Done(readings, i + 1, interval, readings[i], done + [readings[i]])
            else Done(readings, i + 1, interval, last, done)
  {
    assert readings[i..][1..] == readings[i + 1..];
  }

  class Loop {
    var lastMetric: Time
    var lastAlert: Time
    var lastBackup: Time
    var lastTask: Time

    constructor ()
      ensures lastMetric == lastAlert == lastBackup == lastTask == 0.0
    {
      lastMetric, lastAlert, lastBackup, lastTask := 0.0, 0.0, 0.0, 0.0;
    }

    /** One round of the loop per reading of its clock, until it is stopped. */
    method Run(readings: seq<Time>) returns (alerts: seq<Time>, metrics: seq<Time>, backups: seq<Time>,
               tasks: seq<Time>)
      requires lastMetric == lastAlert == lastBackup == lastTask == 0.0
      modifies this
      ensures alerts == RunTimes(readings, 120.0, 0.0)
      ensures metrics == RunTimes(readings, 300.0, 0.0)
      ensures backups == RunTimes(readings, 60.0, 0.0)
      ensures tasks == RunTimes(readings, 60.0, 0.0)
    {
      alerts, metrics, backups, tasks := [], [], [], [];
      var i := 0;
      while i < |readings|
        invariant 0 <= i <= |readings|
        invariant Done(readings, i, ALERT_INTERVAL, lastAlert, alerts)
        invariant Done(readings, i, METRIC_INTERVAL, lastMetric, metrics)
        invariant Done(readings, i, BACKUP_INTERVAL, lastBackup, backups)
        invariant Done(readings, i, TASK_INTERVAL, lastTask, tasks)
      {
        var now := readings[i];
        Round(readings, i, ALERT_INTERVAL, lastAlert, alerts);
        Round(readings, i, METRIC_INTERVAL, lastMetric, metrics);
        Round(readings, i, BACKUP_INTERVAL, lastBackup, backups);
        Round(readings, i, TASK_INTERVAL, lastTask, tasks);
        if now - lastAlert >= ALERT_INTERVAL {
          alerts := alerts + [now];
          lastAlert := now;
        }
        if now - lastMetric >= METRIC_INTERVAL {
          metrics := metrics + [now];
          lastMetric := now;
        }
        if now - lastBackup >= BACKUP_INTERVAL {
          backups := backups + [now];
          lastBackup := now;
        }
        if now - lastTask >= TASK_INTERVAL {
          tasks := tasks + [now];
          lastTask := now;
        }
        i := i + 1;
      }
    }
  }

  /** The readings never go back and are at most g apart. */
  ghost predicate Steady(readings: seq<Time>, g: Time) {
    forall i :: 0 <= i < |readings| - 1 ==> readings[i] <= readings[i + 1] <= readings[i] + g
  }

  /** Neighbours of the sequence are at least interval and less than interval + g apart. */
  ghost predicate Regular(ts: seq<Time>, interval: Time, g: Time) {
    forall i :: 0 <= i < |ts| - 1 ==> interval <= ts[i + 1] - ts[i] < interval + g
  }

  /** From a run on, the runs are regular, and at the end none is overdue. */
  lemma {:induction false} RegularAfterRun(readings: seq<Time>, interval: Time, g: Time, last: Time)
    requires interval > 0.0 && readings != [] && Steady(readings, g)
    requires last <= readings[0] && readings[0] - last < interval
    ensures var all := [last] + RunTimes(readings, interval, last);
            Regular(all, interval, g) && readings[|readings| - 1] - all[|all| - 1] < interval
    decreases |readings|
  {
    if |readings| > 1 {
      var rest := readings[1..];
      var next := if rest[0] - last >= interval then rest[0] else last;
      assert readings[0] <= readings[1] <= readings[0] + g;
      assert forall i :: 0 <= i < |rest| ==> rest[i] == readings[i + 1];
      RegularAfterRun(rest, interval, g, next);
      var tail := [next] + RunTimes(rest, interval, next);
      if next != last {
        assert RunTimes(readings, interval, last) == tail;
        RegularCons(last, tail, interval, g);
      }
    }
  }

  lemma RegularCons(t: Time, ts: seq<Time>, interval: Time, g: Time)
    requires Regular(ts, interval, g) && ts != [] && interval <= ts[0] - t < interval + g
    ensures Regular([t] + ts, interval, g)
  {
    var all := [t] + ts;
    forall i | 0 <= i < |all| - 1 ensures interval <= all[i + 1] - all[i] < interval + g {
      if i > 0 { assert all[i] == ts[i - 1] && all[i + 1] == ts[i - 1 + 1]; }
    }
  }

  /** On a clock past its first interval: every job runs in the first round, its successive
      runs are at least its interval apart and less than interval + g, and the last of them
      is less than an interval before the end. */
  lemma JobsRunRegularly(readings: seq<Time>, interval: Time, g: Time)
    requires interval > 0.0 && readings != [] && Steady(readings, g) && readings[0] >= interval
    ensures var runs := RunTimes(readings, interval, 0.0);
            && runs != [] && runs[0] == readings[0]
            && Regular(runs, interval, g)
            && readings[|readings| - 1] - runs[|runs| - 1] < interval
  {
    RegularAfterRun(readings, interval, g, readings[0]);
    assert RunTimes(readings, interval, 0.0) == [readings[0]] + RunTimes(readings[1..], interval, readings[0]);
    assert RunTimes(readings, interval, readings[0]) == RunTimes(readings[1..], interval, readings[0]);
  }

  /** A job runs at readings only, and passes no reading over: each is a run, or less than
      the interval after one. */
  lemma {:induction false} RunsExactly(readings: seq<Time>, interval: Time, last: Time)
    requires interval > 0.0
    requires forall i, j :: 0 <= i < j < |readings| ==> readings[i] <= readings[j]
    ensures var runs := RunTimes(readings, interval, last);
            && (forall t :: t in runs ==> t in readings)
            && (forall t :: t in readings ==> Recently(t, [last] + runs, interval))
            && (forall i :: 0 <= i < |runs| ==> runs[i] - ([last] + runs)[i] >= interval)
    decreases |readings|
  {
    if readings != [] {
      var now, rest := readings[0], readings[1..];
      assert readings == [now] + rest;
      var next := if now - last >= interval then now else last;
      RunsExactly(rest, interval, next);
      var runs, more := RunTimes(readings, interval, last), RunTimes(rest, interval, next);
      var all, tail := [last] + runs, [next] + more;
      if next == last {
        assert Recently(now, all, interval) by { assert all[0] == last; }
        assert tail == all;
      } else {
        assert runs == [now] + more && runs == tail;
        forall t | t in readings ensures Recently(t, all, interval) {
          if t in rest { LaterRecently(t, last, tail, interval); } else { assert all[1] == now; }
        }
        forall i | 0 <= i < |runs| ensures runs[i] - all[i] >= interval {
          if i == 0 {
            assert runs[0] == now && all[0] == last;
          } else {
            assert runs[i] == more[i - 1] && all[i] == runs[i - 1] == tail[i - 1];
            assert more[i - 1] - tail[i - 1] >= interval;
          }
        }
      }
    }
  }

  /** t is less than the interval after one of the times. */
  ghost predicate Recently(t: Time, times: seq<Time>, interval: Time) {
    exists i :: 0 <= i < |times| && t - times[i] < interval && (times[i] <= t || i == 0)
  }

  lemma LaterRecently(t: Time, last: Time, times: seq<Time>, interval: Time)
    requires Recently(t, times, interval) && times != [] && (times[0] <= t)
    ensures Recently(t, [last] + times, interval)
  {
    var i :| 0 <= i < |times| && t - times[i] < interval && (times[i] <= t || i == 0);
    assert ([last] + times)[i + 1] == times[i];
  }
}
