/** Backup profiles and scheduled tasks: when their cron schedules let them run. */
module CronJobs {
  import opened Sequences
  import S = Scheduler

  /** Clocks count microseconds, the resolution of Python's datetime. */
  const SECOND: int := 1000000
  const MINUTE: int := 60 * SECOND

  /** One part of a schedule: a star, a number, or something int() refuses. */
  datatype Field = Star | Num(n: int) | Bad

  /** A schedule string: empty, or split at white space. */
  datatype Schedule = Empty | Parts(fields: seq<Field>)

  /** minute, hour, day, month and weekday (Monday is 0) of an instant */
  datatype Calendar = Calendar(minute: int, hour: int, day: int, month: int, weekday: int)

  predicate FieldMatches(f: Field, v: int) { f.Star? || (f.Num? && f.n == v) }

  /** At least five parts, the first five of which match. */
  predicate TimeMatches(s: Schedule, c: Calendar) {
    && s.Parts? && |s.fields| >= 5
    && FieldMatches(s.fields[0], c.minute) && FieldMatches(s.fields[1], c.hour)
    && FieldMatches(s.fields[2], c.day) && FieldMatches(s.fields[3], c.month)
    && FieldMatches(s.fields[4], c.weekday)
  }

  /** `_should_run`: a profile that never ran is due at once, whatever its schedule says. */
  predicate BackupDue(s: Schedule, last: Option<int>, now: int, c: Calendar) {
    && s.Parts?
    && (last.Some? ==> TimeMatches(s, c) && now - last.value >= 60 * SECOND)
  }

  /** `_cron_matches` */
  predicate TaskDue(s: Schedule, last: Option<int>, now: int, c: Calendar) {
    TimeMatches(s, c) && (last.Some? ==> now - last.value >= 55 * SECOND)
  }

  // ---------- Profiles and tasks ----------

  datatype Status = NeverRun | Running | Success | Failed

  /** What running a job comes to: the server is not connected, or the command was tried
      and ended (well, badly, or with an exception) at some time. */
  datatype Outcome = Disconnected(at: int) | Ended(at: int, ok: bool, size: Option<nat>)

  predicate Succeeds(o: Outcome) { o.Ended? && o.ok }

  class Profile {
    const schedule: Schedule
    var lastRun: Option<int>
    var lastStatus: Status
    var lastSize: Option<nat>

    constructor (schedule: Schedule)
      ensures this.schedule == schedule && lastRun == None && lastStatus == NeverRun && lastSize == None
    {
      this.schedule := schedule;
      lastRun, lastStatus, lastSize := None, NeverRun, None;
    }

    method RunBackup(o: Outcome) returns (ok: bool)
      modifies this
      ensures lastRun == Some(o.at)
      ensures ok <==> o.Ended? && o.ok
      ensures lastStatus == if ok then Success else Failed
      ensures lastSize == if ok then o.size else None
    {
      if o.Disconnected? {
        lastStatus := Failed;
        lastRun := Some(o.at);
        lastSize := None;
        return false;
      }
      if o.ok {
        lastStatus := Success;
        lastSize := o.size;
      } else {
        lastStatus := Failed;
        lastSize := None;
      }
      lastRun := Some(o.at);
      ok := lastStatus == Success;
    }
  }

  /** `check_backup_schedules`: every profile that is due runs, no other is touched. */
  method CheckBackupSchedules(profiles: seq<Profile>, now: int, c: Calendar, outcome: nat -> Outcome)
    requires forall i, j :: 0 <= i < j < |profiles| ==> profiles[i] != profiles[j]
    modifies profiles
    ensures forall i :: 0 <= i < |profiles| ==>
              profiles[i].lastRun == if BackupDue(profiles[i].schedule, old(profiles[i].lastRun), now, c)
                                     then Some(outcome(i).at) else old(profiles[i].lastRun)
    ensures forall i :: 0 <= i < |profiles| && !BackupDue(profiles[i].schedule, old(profiles[i].lastRun), now, c) ==>
              unchanged(profiles[i])
    ensures forall i :: 0 <= i < |profiles| && BackupDue(profiles[i].schedule, old(profiles[i].lastRun), now, c) ==>
              && profiles[i].lastStatus == (if Succeeds(outcome(i)) then Success else Failed)
              && profiles[i].lastSize == if Succeeds(outcome(i)) then outcome(i).size else None
  {
    var i := 0;
    while i < |profiles|
      invariant 0 <= i <= |profiles|
      invariant forall k :: 0 <= k < i ==>
                  profiles[k].lastRun == if BackupDue(profiles[k].schedule, old(profiles[k].lastRun), now, c)
                                         then Some(outcome(k).at) else old(profiles[k].lastRun)
      invariant forall k :: 0 <= k < i && !BackupDue(profiles[k].schedule, old(profiles[k].lastRun), now, c) ==>
                  unchanged(profiles[k])
      invariant forall k :: 0 <= k < i && BackupDue(profiles[k].schedule, old(profiles[k].lastRun), now, c) ==>
                  && profiles[k].lastStatus == (if Succeeds(outcome(k)) then Success else Failed)
                  && profiles[k].lastSize == if Succeeds(outcome(k)) then outcome(k).size else None
      invariant forall k :: i <= k < |profiles| ==> unchanged(profiles[k])
    {
      if BackupDue(profiles[i].schedule, profiles[i].lastRun, now, c) {
        var ok := profiles[i].RunBackup(outcome(i));
      }
      i := i + 1;
    }
  }

  class Task {
    const schedule: Schedule
    var lastRun: Option<int>
    var lastStatus: Status

    constructor (schedule: Schedule)
      ensures this.schedule == schedule && lastRun == None && lastStatus == NeverRun
    {
      this.schedule := schedule;
      lastRun, lastStatus := None, NeverRun;
    }

    /** One task of `_run_scheduled_tasks`; a task whose server is not connected is marked
        with the time of the check. */
    method CheckTask(now: int, c: Calendar, o: Outcome) returns (ran: bool)
      modifies this
      ensures ran <==> TaskDue(schedule, old(lastRun), now, c)
      ensures lastRun == if !ran then old(lastRun) else Some(if o.Disconnected? then now else o.at)
      ensures lastStatus == if !ran then old(lastStatus) else if o.Ended? && o.ok then Success else Failed
    {
      ran := TaskDue(schedule, lastRun, now, c);
      if !ran {
        return;
      }
      if o.Disconnected? {
        lastStatus := Failed;
        lastRun := Some(now);
        return;
      }
      lastStatus := Running;
      lastStatus := if o.ok then Success else Failed;
      lastRun := Some(o.at);
    }
  }

  /** `_run_scheduled_tasks`: every task that is due runs, no other is touched. */
  method RunScheduledTasks(tasks: seq<Task>, now: int, c: Calendar, outcome: nat -> Outcome)
    requires forall i, j :: 0 <= i < j < |tasks| ==> tasks[i] != tasks[j]
    modifies tasks
    ensures forall i :: 0 <= i < |tasks| ==>
              Checked(tasks[i].lastRun, old(tasks[i].lastRun), tasks[i].schedule, now, c, outcome(i))
    ensures forall i :: 0 <= i < |tasks| ==>
              tasks[i].lastStatus == if !TaskDue(tasks[i].schedule, old(tasks[i].lastRun), now, c)
                                     then old(tasks[i].lastStatus) else if Succeeds(outcome(i)) then Success else Failed
  {
    for i := 0 to |tasks|
      invariant forall k :: 0 <= k < i ==>
                  Checked(tasks[k].lastRun, old(tasks[k].lastRun), tasks[k].schedule, now, c, outcome(k))
      invariant forall k :: 0 <= k < i ==>
                  tasks[k].lastStatus == if !TaskDue(tasks[k].schedule, old(tasks[k].lastRun), now, c)
                                         then old(tasks[k].lastStatus)
                                         else if Succeeds(outcome(k)) then Success else Failed
      invariant forall k :: i <= k < |tasks| ==> unchanged(tasks[k])
    {
      var ran := tasks[i].CheckTask(now, c, outcome(i));
    }
  }

  /** The last run entered by a check: the end of the command, or the time of the check. */
  predicate Checked(after: Option<int>, before: Option<int>, s: Schedule, now: int, c: Calendar, o: Outcome) {
    after == if !TaskDue(s, before, now, c) then before else Some(if o.Disconnected? then now else o.at)
  }

  // ---------- Runs over time ----------

  /** One check of a job: the time it reads, and the time it would enter as last run. */
  datatype Check = Check(now: int, entered: int)

  ghost predicate Ordered(checks: seq<Check>) {
    && (forall i :: 0 <= i < |checks| ==> checks[i].now <= checks[i].entered)
    && (forall i, j :: 0 <= i < j < |checks| ==> checks[i].entered <= checks[j].now)
  }

  /** The check times at which a job fires, for a rule that decides from the time of the
      last run and the time of the check. */
  function Fires(due: (Option<int>, int) -> bool, last: Option<int>, checks: seq<Check>): seq<int>
    decreases |checks|
  {
    if checks == [] then []
    else if due(last, checks[0].now) then [checks[0].now] + Fires(due, Some(checks[0].entered), checks[1..])
    else Fires(due, last, checks[1..])
  }

  /** The rule waits at least gap after a run. */
  ghost predicate Guards(due: (Option<int>, int) -> bool, gap: int) {
    forall last, now :: due(Some(last), now) ==> now - last >= gap
  }

  ghost predicate Spaced(ts: seq<int>, gap: int) {
    forall i :: 0 <= i < |ts| - 1 ==> ts[i + 1] - ts[i] >= gap
  }

  lemma {:induction false} SpacedFar(ts: seq<int>, gap: int, i: nat, j: nat)
    requires gap >= 0 && Spaced(ts, gap) && i < j < |ts|
    ensures ts[j] - ts[i] >= gap
    ensures j >= i + 2 ==> ts[j] - ts[i] >= 2 * gap
    decreases j
  {
    assert ts[j - 1 + 1] - ts[j - 1] >= gap;
    if j > i + 1 {
      SpacedFar(ts, gap, i, j - 1);
    }
  }

  lemma SpacedCons(t: int, ts: seq<int>, gap: int)
    requires Spaced(ts, gap) && (ts != [] ==> ts[0] - t >= gap)
    ensures Spaced([t] + ts, gap)
  {
    var all := [t] + ts;
    forall i | 0 <= i < |all| - 1 ensures all[i + 1] - all[i] >= gap {
      assert all[i + 1] == ts[i] && (i > 0 ==> all[i] == ts[i - 1]);
      assert i > 0 ==> ts[i - 1 + 1] - ts[i - 1] >= gap;
    }
  }

  lemma {:induction false} FiresAreSpaced(due: (Option<int>, int) -> bool, gap: int, last: Option<int>,
                                          checks: seq<Check>)
    requires Guards(due, gap) && Ordered(checks)
    ensures var fs := Fires(due, last, checks);
            Spaced(fs, gap) && (last.Some? && fs != [] ==> fs[0] - last.value >= gap)
    decreases |checks|
  {
    if checks != [] {
      var c, rest := checks[0], checks[1..];
      assert forall i :: 0 <= i < |rest| ==> rest[i] == checks[i + 1];
      if due(last, c.now) {
        FiresAreSpaced(due, gap, Some(c.entered), rest);
        SpacedCons(c.now, Fires(due, Some(c.entered), rest), gap);
      } else {
        FiresAreSpaced(due, gap, last, rest);
      }
    }
  }

  /** Calendar minutes are minutes of the clock. */
  function MinuteOf(t: int): int { t / MINUTE }

  lemma SameMinute(a: int, b: int)
    requires MinuteOf(a) == MinuteOf(b)
    ensures b - a < MINUTE
  {
  }

  function BackupRule(s: Schedule, calendar: int -> Calendar): (Option<int>, int) -> bool {
    (last, now) => BackupDue(s, last, now, calendar(now))
  }

  function TaskRule(s: Schedule, calendar: int -> Calendar): (Option<int>, int) -> bool {
    (last, now) => TaskDue(s, last, now, calendar(now))
  }

  lemma BackupGuards(s: Schedule, calendar: int -> Calendar)
    ensures Guards(BackupRule(s, calendar), MINUTE)
  {
    var due := BackupRule(s, calendar);
    forall last, now | due(Some(last), now) ensures now - last >= MINUTE {
      assert BackupDue(s, Some(last), now, calendar(now));
    }
  }

  lemma TaskGuards(s: Schedule, calendar: int -> Calendar)
    ensures Guards(TaskRule(s, calendar), 55 * SECOND)
  {
    var due := TaskRule(s, calendar);
    forall last, now | due(Some(last), now) ensures now - last >= 55 * SECOND {
      assert TaskDue(s, Some(last), now, calendar(now));
    }
  }

  /** A backup profile fires at most once in a calendar minute. */
  lemma BackupFiresOncePerMinute(s: Schedule, calendar: int -> Calendar, last: Option<int>, checks: seq<Check>,
                                 i: nat, j: nat)
    requires Ordered(checks) && i < j < |Fires(BackupRule(s, calendar), last, checks)|
    ensures var fs := Fires(BackupRule(s, calendar), last, checks);
            MinuteOf(fs[i]) != MinuteOf(fs[j])
  {
    var fs := Fires(BackupRule(s, calendar), last, checks);
    BackupGuards(s, calendar);
    FiresAreSpaced(BackupRule(s, calendar), MINUTE, last, checks);
    SpacedFar(fs, MINUTE, i, j);
    if MinuteOf(fs[i]) == MinuteOf(fs[j]) {
      SameMinute(fs[i], fs[j]);
    }
  }

  /** A task fires at most twice in a calendar minute. */
  lemma TaskFiresTwicePerMinute(s: Schedule, calendar: int -> Calendar, last: Option<int>, checks: seq<Check>,
                                i: nat, j: nat, k: nat)
    requires Ordered(checks) && i < j < k < |Fires(TaskRule(s, calendar), last, checks)|
    ensures var fs := Fires(TaskRule(s, calendar), last, checks);
            MinuteOf(fs[i]) != MinuteOf(fs[k])
  {
    var fs := Fires(TaskRule(s, calendar), last, checks);
    TaskGuards(s, calendar);
    FiresAreSpaced(TaskRule(s, calendar), 55 * SECOND, last, checks);
    SpacedFar(fs, 55 * SECOND, i, k);
    if MinuteOf(fs[i]) == MinuteOf(fs[k]) {
      SameMinute(fs[i], fs[k]);
    }
  }

  /** The 55-second guard alone does let a task fire twice: a check at the start of a
      matching minute and one at its 55th second both fire. */
  lemma TaskCanFireTwice(s: Schedule, calendar: int -> Calendar, m: int)
    requires TimeMatches(s, calendar(m * MINUTE)) && TimeMatches(s, calendar(m * MINUTE + 55 * SECOND))
    ensures var checks := [Check(m * MINUTE, m * MINUTE), Check(m * MINUTE + 55 * SECOND, m * MINUTE + 55 * SECOND)];
            && Ordered(checks)
            && Fires(TaskRule(s, calendar), None, checks) == [m * MINUTE, m * MINUTE + 55 * SECOND]
            && MinuteOf(m * MINUTE) == MinuteOf(m * MINUTE + 55 * SECOND)
  {
    var a, b := Check(m * MINUTE, m * MINUTE), Check(m * MINUTE + 55 * SECOND, m * MINUTE + 55 * SECOND);
    assert [a, b][1..] == [b] && [b][1..] == [];
    assert Fires(TaskRule(s, calendar), Some(a.entered), [b]) == [b.now] + [];
  }

  lemma {:induction false} FiresAreChecks(due: (Option<int>, int) -> bool, last: Option<int>,
                                          checks: seq<Check>, gap: int)
    requires gap >= 0 && forall i :: 0 <= i < |checks| - 1 ==> checks[i + 1].now - checks[i].now >= gap
    ensures var fs := Fires(due, last, checks);
            Spaced(fs, gap) && (fs != [] ==> fs[0] >= checks[0].now)
    decreases |checks|
  {
    if checks != [] {
      var c, rest := checks[0], checks[1..];
      forall i | 0 <= i < |rest| - 1 ensures rest[i + 1].now - rest[i].now >= gap {
        assert checks[i + 1 + 1].now - checks[i + 1].now >= gap;
      }
      var next := if due(last, c.now) then Some(c.entered) else last;
      FiresAreChecks(due, next, rest, gap);
      if |checks| > 1 {
        assert checks[0 + 1].now - checks[0].now >= gap;
      }
      if due(last, c.now) {
        SpacedCons(c.now, Fires(due, next, rest), gap);
      }
    }
  }

  // ---------- How often a task fires in a minute ----------

  /** All checks fall into one calendar minute, which the schedule matches. */
  ghost predicate InMinute(s: Schedule, calendar: int -> Calendar, checks: seq<Check>, m: int) {
    forall i :: 0 <= i < |checks| ==> MinuteOf(checks[i].now) == m && TimeMatches(s, calendar(checks[i].now))
  }

  /** The first check at least 55 seconds after the last run. */
  function FirstDue(last: Option<int>, checks: seq<Check>): (k: nat)
    ensures k <= |checks|
  {
    if checks == [] || last.None? || checks[0].now - last.value >= 55 * SECOND then 0
    else 1 + FirstDue(last, checks[1..])
  }

  lemma OrderedRest(checks: seq<Check>)
    requires Ordered(checks) && checks != []
    ensures Ordered(checks[1..])
  {
    assert forall i :: 0 <= i < |checks[1..]| ==> checks[1..][i] == checks[i + 1];
  }

  /** The guard is passed by some check exactly if the last one passes it. */
  lemma {:induction false} LastIsFirstDue(ran: int, checks: seq<Check>)
    requires Ordered(checks) && checks != []
    ensures FirstDue(Some(ran), checks) == |checks| <==> checks[|checks| - 1].now - ran < 55 * SECOND
    decreases |checks|
  {
    if |checks| > 1 {
      OrderedRest(checks);
      LastIsFirstDue(ran, checks[1..]);
      assert checks[0].now <= checks[0].entered <= checks[|checks| - 1].now;
    }
  }

  /** How many times a task fires in a matching minute, whenever it ran last: never if no
      check is 55 seconds after the last run; else twice exactly if the last check is 55
      seconds after the first firing was entered. */
  lemma {:induction false} TaskFiringsInMinute(s: Schedule, calendar: int -> Calendar, last: Option<int>,
                                               checks: seq<Check>, m: int)
    requires Ordered(checks) && InMinute(s, calendar, checks, m)
    ensures var k, n := FirstDue(last, checks), |Fires(TaskRule(s, calendar), last, checks)|;
            n == if k == |checks| then 0
                 else if checks[|checks| - 1].now - checks[k].entered >= 55 * SECOND then 2 else 1
    decreases |checks|
  {
    if checks != [] {
      var c, rest := checks[0], checks[1..];
      OrderedRest(checks);
      assert forall i :: 0 <= i < |rest| ==> rest[i] == checks[i + 1];
      if TaskRule(s, calendar)(last, c.now) {
        TaskFiringsInMinute(s, calendar, Some(c.entered), rest, m);
        if rest != [] {
          LastIsFirstDue(c.entered, rest);
          NoThirdFiring(c, rest, m);
        }
      } else {
        TaskFiringsInMinute(s, calendar, last, rest, m);
      }
    }
  }

  lemma NoThirdFiring(c: Check, rest: seq<Check>, m: int)
    requires rest != [] && c.now <= c.entered && MinuteOf(c.now) == MinuteOf(rest[|rest| - 1].now) == m
    requires Ordered(rest)
    ensures var k := FirstDue(Some(c.entered), rest);
            k < |rest| ==> rest[|rest| - 1].now - rest[k].entered < 55 * SECOND
  {
    FirstDueGuard(c.entered, rest);
    SameMinute(c.now, rest[|rest| - 1].now);
  }

  lemma {:induction false} FirstDueGuard(ran: int, checks: seq<Check>)
    ensures var k := FirstDue(Some(ran), checks); k < |checks| ==> checks[k].now - ran >= 55 * SECOND
    decreases |checks|
  {
    if checks != [] && checks[0].now - ran < 55 * SECOND {
      FirstDueGuard(ran, checks[1..]);
    }
  }

  /** In a matching minute a task that has not run for 55 seconds fires a second time
      exactly if its last check comes 55 seconds after the first run was entered. */
  lemma TaskFiresTwiceExactly(s: Schedule, calendar: int -> Calendar, last: Option<int>, checks: seq<Check>, m: int)
    requires checks != [] && Ordered(checks) && InMinute(s, calendar, checks, m)
    requires last.Some? ==> checks[0].now - last.value >= 55 * SECOND
    ensures |Fires(TaskRule(s, calendar), last, checks)| >= 2
       <==> checks[|checks| - 1].now - checks[0].entered >= 55 * SECOND
  {
    TaskFiringsInMinute(s, calendar, last, checks, m);
  }

  /** The last run after some checks. */
  function LastAfter(due: (Option<int>, int) -> bool, last: Option<int>, checks: seq<Check>): Option<int>
    decreases |checks|
  {
    if checks == [] then last
    else LastAfter(due, if due(last, checks[0].now) then Some(checks[0].entered) else last, checks[1..])
  }

  lemma {:induction false} FiresConcat(due: (Option<int>, int) -> bool, last: Option<int>, a: seq<Check>, b: seq<Check>)
    ensures Fires(due, last, a + b) == Fires(due, last, a) + Fires(due, LastAfter(due, last, a), b)
    decreases |a|
  {
    if a == [] {
      assert a + b == b;
    } else {
      assert (a + b)[1..] == a[1..] + b;
      FiresConcat(due, if due(last, a[0].now) then Some(a[0].entered) else last, a[1..], b);
    }
  }

  /** The same for the checks of a minute in the midst of a run. */
  lemma TaskFiringsInRun(s: Schedule, calendar: int -> Calendar, last: Option<int>,
                         before: seq<Check>, checks: seq<Check>, after: seq<Check>, m: int)
    requires Ordered(checks) && InMinute(s, calendar, checks, m)
    ensures var due := TaskRule(s, calendar);
            var now := LastAfter(due, last, before);
            var mine, k := Fires(due, now, checks), FirstDue(now, checks);
            && Fires(due, last, before + checks + after)
            == Fires(due, last, before) + mine + Fires(due, LastAfter(due, last, before + checks), after)
            && |mine| == (if k == |checks| then 0
                          else if checks[|checks| - 1].now - checks[k].entered >= 55 * SECOND then 2 else 1)
  {
    var due := TaskRule(s, calendar);
    FiresConcat(due, last, before + checks, after);
    FiresConcat(due, last, before, checks);
    TaskFiringsInMinute(s, calendar, LastAfter(due, last, before), checks, m);
  }

  /** With checks at least a minute apart a task too fires at most once in a calendar
      minute. */
  lemma TaskFiresOncePerMinuteIfCheckedOnce(s: Schedule, calendar: int -> Calendar, last: Option<int>,
                                            checks: seq<Check>, i: nat, j: nat)
    requires forall k :: 0 <= k < |checks| - 1 ==> checks[k + 1].now - checks[k].now >= MINUTE
    requires i < j < |Fires(TaskRule(s, calendar), last, checks)|
    ensures var fs := Fires(TaskRule(s, calendar), last, checks);
            MinuteOf(fs[i]) != MinuteOf(fs[j])
  {
    var fs := Fires(TaskRule(s, calendar), last, checks);
    FiresAreChecks(TaskRule(s, calendar), last, checks, MINUTE);
    SpacedFar(fs, MINUTE, i, j);
    if MinuteOf(fs[i]) == MinuteOf(fs[j]) {
      SameMinute(fs[i], fs[j]);
    }
  }

  // ---------- The checks the scheduler makes ----------

  /** The jobs that come first in a round delay the task check: it reads its own clock some
      time after the reading of the loop. */
  ghost predicate ReadLater(runs: seq<S.Time>, lags: seq<S.Time>, checks: seq<Check>) {
    && |runs| == |lags| == |checks|
    && forall i :: 0 <= i < |runs| ==>
         lags[i] >= 0.0 && checks[i].now == ((runs[i] + lags[i]) * 1000000.0).Floor
  }

  /** Under the scheduler a task fires at most once in a calendar minute while the delay of
      its check does not shrink from one round to the next. */
  lemma SchedulerFiresOnce(s: Schedule, calendar: int -> Calendar, last: Option<int>, readings: seq<S.Time>, g: S.Time,
                           lags: seq<S.Time>, checks: seq<Check>, i: nat, j: nat)
    requires readings != [] && S.Steady(readings, g) && readings[0] >= S.TASK_INTERVAL
    requires ReadLater(S.RunTimes(readings, S.TASK_INTERVAL, 0.0), lags, checks)
    requires forall k :: 0 <= k < |lags| - 1 ==> lags[k] <= lags[k + 1]
    requires i < j < |Fires(TaskRule(s, calendar), last, checks)|
    ensures var fs := Fires(TaskRule(s, calendar), last, checks);
            MinuteOf(fs[i]) != MinuteOf(fs[j])
  {
    var runs := S.RunTimes(readings, S.TASK_INTERVAL, 0.0);
    S.JobsRunRegularly(readings, S.TASK_INTERVAL, g);
    forall k | 0 <= k < |checks| - 1 ensures checks[k + 1].now - checks[k].now >= MINUTE {
      assert lags[k] <= lags[k + 1];
      LaterByAMinute((runs[k] + lags[k]) * 1000000.0, (runs[k + 1] + lags[k + 1]) * 1000000.0);
    }
    TaskFiresOncePerMinuteIfCheckedOnce(s, calendar, last, checks, i, j);
  }

  lemma LaterByAMinute(a: real, b: real)
    requires b >= a + 60000000.0
    ensures b.Floor - a.Floor >= MINUTE
  {
  }

  /** When the delay shrinks it can fire twice: rounds read at 10 seconds before a matching
      minute, in it at second 20 and at second 50, whose task checks come 10 and 5 seconds
      later, fire at seconds 0 and 55. */
  lemma ShrinkingDelayFiresTwice(s: Schedule, calendar: int -> Calendar, m: nat)
    requires m >= 2
    requires TimeMatches(s, calendar(m * MINUTE)) && TimeMatches(s, calendar(m * MINUTE + 55 * SECOND))
    ensures var start := 60.0 * m as real;
            var readings := [start - 10.0, start + 20.0, start + 50.0];
            var checks := [Check(m * MINUTE, m * MINUTE), Check(m * MINUTE + 55 * SECOND, m * MINUTE + 55 * SECOND)];
            && S.Steady(readings, 30.0) && readings[0] >= S.TASK_INTERVAL
            && ReadLater(S.RunTimes(readings, S.TASK_INTERVAL, 0.0), [10.0, 5.0], checks)
            && Fires(TaskRule(s, calendar), None, checks) == [m * MINUTE, m * MINUTE + 55 * SECOND]
            && MinuteOf(m * MINUTE) == MinuteOf(m * MINUTE + 55 * SECOND)
  {
    var start := 60.0 * m as real;
    TaskCanFireTwice(s, calendar, m);
    EverySecondReading(start - 10.0);
    assert (start * 1000000.0).Floor == m * MINUTE;
    assert ((start + 55.0) * 1000000.0).Floor == m * MINUTE + 55 * SECOND;
  }

  /** Of readings half a minute apart the task job runs at every second one. */
  lemma EverySecondReading(t: S.Time)
    requires t >= S.TASK_INTERVAL
    ensures S.RunTimes([t, t + 30.0, t + 60.0], S.TASK_INTERVAL, 0.0) == [t, t + 60.0]
  {
    var a, b, c := [t, t + 30.0, t + 60.0], [t + 30.0, t + 60.0], [t + 60.0];
    assert a[1..] == b && b[1..] == c && c[1..] == [];
    assert S.RunTimes(c, S.TASK_INTERVAL, t) == [t + 60.0] + S.RunTimes([], S.TASK_INTERVAL, t + 60.0);
    assert S.RunTimes(b, S.TASK_INTERVAL, t) == S.RunTimes(c, S.TASK_INTERVAL, t);
  }

  // ---------- When a schedule matches and a job is due ----------

  /** The parts of a schedule stand for minute, hour, day, month and weekday, in this order;
      further parts are ignored, and with fewer than five or one that is no number nothing
      matches. */
  lemma SchedulesExactly(minute: Field, hour: Field, day: Field, month: Field, weekday: Field, more: seq<Field>,
                         at: Calendar)
    ensures TimeMatches(Parts([minute, hour, day, month, weekday] + more), at)
       <==> && (minute == Star || minute == Num(at.minute)) && (hour == Star || hour == Num(at.hour))
            && (day == Star || day == Num(at.day)) && (month == Star || month == Num(at.month))
            && (weekday == Star || weekday == Num(at.weekday))
    ensures !TimeMatches(Empty, at)
    ensures !TimeMatches(Parts([minute, hour, day, month]), at)
  {
    var fields := [minute, hour, day, month, weekday] + more;
    assert fields[0] == minute && fields[1] == hour && fields[2] == day && fields[3] == month && fields[4] == weekday;
  }

  /** A profile that never ran fires at the first check, whatever its schedule says, unless it
      has none. */
  lemma FirstBackupFires(s: Schedule, calendar: int -> Calendar, checks: seq<Check>)
    requires s.Parts? && checks != []
    ensures |Fires(BackupRule(s, calendar), None, checks)| > 0
    ensures Fires(BackupRule(s, calendar), None, checks)[0] == checks[0].now
  {
    var now := checks[0].now;
    assert BackupDue(s, None, now, calendar(now));
    assert BackupRule(s, calendar)(None, now);
  }

  /** Without a schedule nothing ever fires. */
  lemma {:induction false} NoScheduleNeverFires(calendar: int -> Calendar, last: Option<int>, checks: seq<Check>)
    ensures Fires(BackupRule(Empty, calendar), last, checks) == []
    ensures Fires(TaskRule(Empty, calendar), last, checks) == []
    decreases |checks|
  {
    if checks != [] {
      var now := checks[0].now;
      assert !BackupDue(Empty, last, now, calendar(now)) && !TaskDue(Empty, last, now, calendar(now));
      assert !BackupRule(Empty, calendar)(last, now) && !TaskRule(Empty, calendar)(last, now);
      NoScheduleNeverFires(calendar, last, checks[1..]);
    }
  }

  /** Outside the minutes that match, no task fires, and no profile that ran before. */
  lemma {:induction false} OtherMinutesAreQuiet(s: Schedule, calendar: int -> Calendar, last: Option<int>,
                                                checks: seq<Check>)
    requires forall i :: 0 <= i < |checks| ==> !TimeMatches(s, calendar(checks[i].now))
    ensures Fires(TaskRule(s, calendar), last, checks) == []
    ensures last.Some? ==> Fires(BackupRule(s, calendar), last, checks) == []
    decreases |checks|
  {
    if checks != [] {
      assert forall i :: 0 <= i < |checks[1..]| ==> checks[1..][i] == checks[i + 1];
      assert !TimeMatches(s, calendar(checks[0].now));
      assert !TaskRule(s, calendar)(last, checks[0].now);
      assert last.Some? ==> !BackupRule(s, calendar)(last, checks[0].now);
      OtherMinutesAreQuiet(s, calendar, last, checks[1..]);
    }
  }

  /** In a matching minute a profile that ran before fires once, if one of the checks comes
      60 seconds after its last run, and otherwise not at all. */
  lemma {:induction false} BackupFiringsInMinute(s: Schedule, calendar: int -> Calendar, last: int,
                                                 checks: seq<Check>, m: int)
    requires Ordered(checks) && InMinute(s, calendar, checks, m)
    ensures |Fires(BackupRule(s, calendar), Some(last), checks)|
         == if exists i :: 0 <= i < |checks| && checks[i].now - last >= 60000000 then 1 else 0
    decreases |checks|
  {
    if checks != [] {
      var c, rest := checks[0], checks[1..];
      OrderedRest(checks);
      assert forall i :: 0 <= i < |rest| ==> rest[i] == checks[i + 1];
      assert forall i :: 0 < i < |checks| ==> checks[i] == rest[i - 1];
      if BackupRule(s, calendar)(Some(last), c.now) {
        assert checks[0].now - last >= 60000000;
        BackupFiringsInMinute(s, calendar, c.entered, rest, m);
        forall i | 0 <= i < |rest| ensures rest[i].now - c.entered < 60000000 {
          SameMinute(c.now, rest[i].now);
        }
      } else {
        BackupFiringsInMinute(s, calendar, last, rest, m);
      }
    }
  }
}
