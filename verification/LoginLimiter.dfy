/** The sliding-window limit on failed logins, kept per IP address. */
module LoginLimiter {

  /** Readings of `time.time()`, in seconds. */
  type Time = real

  const MAX_LOGIN_ATTEMPTS: nat := 5
  const LOGIN_WINDOW: Time := 300.0

  /** The attempts that are less than a window old. */
  function Recent(ts: seq<Time>, now: Time): seq<Time> {
    if ts == [] then [] else (if now - ts[0] < LOGIN_WINDOW then [ts[0]] else []) + Recent(ts[1..], now)
  }

  /** Whether a login attempt that gets past the limit has the right password. */
  datatype Answer = Limited | LoggedIn | Rejected

  /** One login attempt: when the limit is checked, when a failure would be recorded. */
  datatype Attempt = Attempt(ip: string, check: Time, record: Time, correct: bool)

  function Of(m: map<string, seq<Time>>, ip: string): seq<Time> { if ip in m then m[ip] else [] }

  class Limiter {
    var attempts: map<string, seq<Time>>

    constructor ()
      ensures attempts == map[]
    {
      attempts := map[];
    }

    method IsRateLimited(ip: string, now: Time) returns (limited: bool)
      modifies this
      ensures attempts == old(attempts)[ip := Recent(Of(old(attempts), ip), now)]
      ensures limited <==> |Recent(Of(old(attempts), ip), now)| >= MAX_LOGIN_ATTEMPTS
    {
      var kept := [];
      var all := Of(attempts, ip);
      var i := 0;
      while i < |all|
        invariant 0 <= i <= |all|
        invariant kept == Recent(all[..i], now) && attempts == old(attempts)
      {
        RecentNext(all, i, now);
        if now - all[i] < LOGIN_WINDOW {
          kept := kept + [all[i]];
        }
        i := i + 1;
      }
      assert all[..i] == all;
      attempts := attempts[ip := kept];
      limited := |kept| >= MAX_LOGIN_ATTEMPTS;
    }

    method RecordAttempt(ip: string, now: Time)
      modifies this
      ensures attempts == old(attempts)[ip := Of(old(attempts), ip) + [now]]
    {
      attempts := attempts[ip := Of(attempts, ip) + [now]];
    }

    method Login(a: Attempt) returns (answer: Answer)
      modifies this
      ensures (answer, attempts) == Step(old(attempts), a)
    {
      var limited := IsRateLimited(a.ip, a.check);
      if limited {
        return Limited;
      }
      if a.correct {
        return LoggedIn;
      }
      RecordAttempt(a.ip, a.record);
      answer := Rejected;
    }
  }

  /** One attempt on the pruned lists. */
  function Step(m: map<string, seq<Time>>, a: Attempt): (Answer, map<string, seq<Time>>) {
    var recent := Recent(Of(m, a.ip), a.check);
    var m' := m[a.ip := recent];
    if |recent| >= MAX_LOGIN_ATTEMPTS then (Limited, m')
    else if a.correct then (LoggedIn, m')
    else (Rejected, m'[a.ip := recent + [a.record]])
  }

  /** The same on histories that are never pruned. */
  function FullStep(h: map<string, seq<Time>>, a: Attempt): (Answer, map<string, seq<Time>>) {
    if |Recent(Of(h, a.ip), a.check)| >= MAX_LOGIN_ATTEMPTS then (Limited, h)
    else if a.correct then (LoggedIn, h)
    else (Rejected, h[a.ip := Of(h, a.ip) + [a.record]])
  }

  function Answers(m: map<string, seq<Time>>, run: seq<Attempt>): seq<Answer>
    decreases |run|
  {
    if run == [] then [] else [Step(m, run[0]).0] + Answers(Step(m, run[0]).1, run[1..])
  }

  function FullAnswers(h: map<string, seq<Time>>, run: seq<Attempt>): seq<Answer>
    decreases |run|
  {
    if run == [] then [] else [FullStep(h, run[0]).0] + FullAnswers(FullStep(h, run[0]).1, run[1..])
  }

  function History(h: map<string, seq<Time>>, run: seq<Attempt>): map<string, seq<Time>>
    decreases |run|
  {
    if run == [] then h else History(FullStep(h, run[0]).1, run[1..])
  }

  ghost predicate Ordered(run: seq<Attempt>) {
    && (forall i :: 0 <= i < |run| ==> run[i].check <= run[i].record)
    && (forall i, j :: 0 <= i < j < |run| ==> run[i].record <= run[j].check)
  }

  // ---------- Pruning does not change the answers ----------

  lemma {:induction false} RecentConcat(a: seq<Time>, b: seq<Time>, now: Time)
    ensures Recent(a + b, now) == Recent(a, now) + Recent(b, now)
  {
    if a == [] {
      assert a + b == b;
    } else {
      assert (a + b)[1..] == a[1..] + b;
      RecentConcat(a[1..], b, now);
    }
  }

  lemma RecentNext(ts: seq<Time>, i: nat, now: Time)
    requires i < |ts|
    ensures Recent(ts[..i + 1], now) == Recent(ts[..i], now) + if now - ts[i] < LOGIN_WINDOW then [ts[i]] else []
  {
    RecentConcat(ts[..i], [ts[i]], now);
    assert ts[..i + 1] == ts[..i] + [ts[i]] && [ts[i]][1..] == [];
  }

  /** What was pruned earlier would be pruned later as well. */
  lemma {:induction false} RecentAgain(ts: seq<Time>, early: Time, late: Time)
    requires early <= late
    ensures Recent(Recent(ts, early), late) == Recent(ts, late)
  {
    if ts != [] {
      var head := if early - ts[0] < LOGIN_WINDOW then [ts[0]] else [];
      RecentConcat(head, Recent(ts[1..], early), late);
      RecentAgain(ts[1..], early, late);
      assert [ts[0]][1..] == [];
    }
  }

  /** From time t on, the pruned list and the history have the same recent attempts. */
  ghost predicate Agree(ts: seq<Time>, h: seq<Time>, t: Time) {
    forall now :: now >= t ==> Recent(ts, now) == Recent(h, now)
  }

  ghost predicate AllAgree(m: map<string, seq<Time>>, h: map<string, seq<Time>>, t: Time) {
    forall ip :: Agree(Of(m, ip), Of(h, ip), t)
  }

  lemma StepAgrees(m: map<string, seq<Time>>, h: map<string, seq<Time>>, t: Time, a: Attempt)
    requires AllAgree(m, h, t) && t <= a.check <= a.record
    ensures Step(m, a).0 == FullStep(h, a).0
    ensures AllAgree(Step(m, a).1, FullStep(h, a).1, a.record)
  {
    var ts, full := Of(m, a.ip), Of(h, a.ip);
    assert Agree(ts, full, t);
    var m', h' := Step(m, a).1, FullStep(h, a).1;
    forall ip ensures Agree(Of(m', ip), Of(h', ip), a.record) {
      assert Agree(Of(m, ip), Of(h, ip), t);
      if ip == a.ip {
        forall now | now >= a.record ensures Recent(Of(m', ip), now) == Recent(Of(h', ip), now) {
          RecentAgain(ts, a.check, now);
          RecentConcat(Recent(ts, a.check), [a.record], now);
          RecentConcat(full, [a.record], now);
        }
      }
    }
  }

  /** For every address and every run of attempts, the pruned lists give the answers that
      filtering the full history of failures gives. */
  lemma {:induction false} PruningIsHarmless(m: map<string, seq<Time>>, h: map<string, seq<Time>>, t: Time,
                                             run: seq<Attempt>)
    requires AllAgree(m, h, t) && Ordered(run) && (run != [] ==> t <= run[0].check)
    ensures Answers(m, run) == FullAnswers(h, run)
    decreases |run|
  {
    if run != [] {
      StepAgrees(m, h, t, run[0]);
      PruningIsHarmless(Step(m, run[0]).1, FullStep(h, run[0]).1, run[0].record, run[1..]);
    }
  }

  lemma AnswersFromTheStart(run: seq<Attempt>)
    requires Ordered(run)
    ensures Answers(map[], run) == FullAnswers(map[], run)
  {
    if run != [] {
      PruningIsHarmless(map[], map[], run[0].check, run);
    }
  }

  // ---------- Never more than five failures in a window ----------

  /** Recorded in order, and any six in a row take at least a window. */
  ghost predicate Slow(ts: seq<Time>) {
    && (forall i, j :: 0 <= i < j < |ts| ==> ts[i] <= ts[j])
    && (forall i, j :: 0 <= i && j == i + MAX_LOGIN_ATTEMPTS < |ts| ==> ts[j] - ts[i] >= LOGIN_WINDOW)
  }

  ghost predicate Upto(ts: seq<Time>, t: Time) {
    forall i :: 0 <= i < |ts| ==> ts[i] <= t
  }

  lemma {:induction false} AllRecent(ts: seq<Time>, now: Time)
    requires forall i :: 0 <= i < |ts| ==> now - ts[i] < LOGIN_WINDOW
    ensures Recent(ts, now) == ts
  {
    if ts != [] {
      AllRecent(ts[1..], now);
    }
  }

  lemma RecentTail(ts: seq<Time>, now: Time, n: nat)
    requires n < |ts| && forall i :: n <= i < |ts| ==> now - ts[i] < LOGIN_WINDOW
    ensures |Recent(ts, now)| >= |ts| - n
  {
    RecentConcat(ts[..n], ts[n..], now);
    AllRecent(ts[n..], now);
    assert ts[..n] + ts[n..] == ts;
  }

  /** With fewer than five recent failures, the fifth last is a window old. */
  lemma FifthLastIsOld(ts: seq<Time>, now: Time)
    requires Slow(ts) && |ts| >= MAX_LOGIN_ATTEMPTS && |Recent(ts, now)| < MAX_LOGIN_ATTEMPTS
    ensures now - ts[|ts| - MAX_LOGIN_ATTEMPTS] >= LOGIN_WINDOW
  {
    var n := |ts| - MAX_LOGIN_ATTEMPTS;
    if now - ts[n] < LOGIN_WINDOW {
      RecentTail(ts, now, n);
    }
  }

  lemma RecordKeepsSlow(ts: seq<Time>, a: Attempt)
    requires Slow(ts) && Upto(ts, a.check) && a.check <= a.record
    requires |Recent(ts, a.check)| < MAX_LOGIN_ATTEMPTS
    ensures Slow(ts + [a.record])
  {
    if |ts| >= MAX_LOGIN_ATTEMPTS {
      FifthLastIsOld(ts, a.check);
    }
  }

  lemma {:induction false} HistoryIsSlow(h: map<string, seq<Time>>, t: Time, run: seq<Attempt>, ip: string)
    requires Slow(Of(h, ip)) && Upto(Of(h, ip), t) && Ordered(run) && (run != [] ==> t <= run[0].check)
    ensures Slow(Of(History(h, run), ip))
    decreases |run|
  {
    if run != [] {
      var a, h' := run[0], FullStep(h, run[0]).1;
      if FullStep(h, a).0.Rejected? && a.ip == ip {
        RecordKeepsSlow(Of(h, ip), a);
      }
      HistoryIsSlow(h', a.record, run[1..], ip);
    }
  }

  /** How many attempts fall into the window that starts at a. */
  function InWindow(ts: seq<Time>, a: Time): nat {
    if ts == [] then 0
    else InWindow(ts[..|ts| - 1], a) + if a <= ts[|ts| - 1] < a + LOGIN_WINDOW then 1 else 0
  }

  lemma {:induction false} FewInWindow(ts: seq<Time>, a: Time, k: nat)
    requires Slow(ts) && k <= |ts| && forall i :: 0 <= i < |ts| - k ==> ts[i] < a
    ensures InWindow(ts, a) <= k
    decreases |ts|
  {
    if ts != [] {
      var front := ts[..|ts| - 1];
      FewInWindow(front, a, if k == 0 then 0 else k - 1);
    }
  }

  lemma {:induction false} AtMostFiveInWindow(ts: seq<Time>, a: Time)
    requires Slow(ts)
    ensures InWindow(ts, a) <= MAX_LOGIN_ATTEMPTS
    decreases |ts|
  {
    if |ts| <= MAX_LOGIN_ATTEMPTS {
      FewInWindow(ts, a, |ts|);
    } else if ts[|ts| - 1] < a + LOGIN_WINDOW {
      var i := |ts| - 1 - MAX_LOGIN_ATTEMPTS;
      assert ts[i + MAX_LOGIN_ATTEMPTS] - ts[i] >= LOGIN_WINDOW;
      FewInWindow(ts, a, MAX_LOGIN_ATTEMPTS);
    } else {
      AtMostFiveInWindow(ts[..|ts| - 1], a);
    }
  }

  /** In every run and for every address, no half-open window of 300 seconds holds more
      than five recorded failures. */
  lemma WindowsHoldAtMostFiveFailures(run: seq<Attempt>, ip: string, a: Time)
    requires Ordered(run)
    ensures InWindow(Of(History(map[], run), ip), a) <= MAX_LOGIN_ATTEMPTS
  {
    HistoryIsSlow(map[], if run == [] then 0.0 else run[0].check, run, ip);
    AtMostFiveInWindow(Of(History(map[], run), ip), a);
  }

  // ---------- Which attempts are let through ----------

  /** How many of the times are less than 300 seconds ago. */
  function Lately(ts: seq<Time>, now: Time): nat {
    if ts == [] then 0
    else Lately(ts[..|ts| - 1], now) + if now - ts[|ts| - 1] < 300.0 then 1 else 0
  }

  lemma {:induction false} LatelyIsRecent(ts: seq<Time>, now: Time)
    ensures Lately(ts, now) == |Recent(ts, now)|
  {
    if ts != [] {
      var front, last := ts[..|ts| - 1], ts[|ts| - 1];
      assert ts == front + [last] && [last][1..] == [];
      LatelyIsRecent(front, now);
      RecentConcat(front, [last], now);
    }
  }

  /** The times at which the first k attempts of an address were recorded as failures. */
  function Failures(run: seq<Attempt>, answers: seq<Answer>, ip: string, k: nat): seq<Time>
    requires k <= |run| && |answers| == |run|
    decreases k
  {
    if k == 0 then []
    else (if answers[0] == Rejected && run[0].ip == ip then [run[0].record] else [])
         + Failures(run[1..], answers[1..], ip, k - 1)
  }

  function Judged(failures: seq<Time>, a: Attempt): Answer {
    if Lately(failures, a.check) >= 5 then Limited else if a.correct then LoggedIn else Rejected
  }

  lemma {:induction false} AnswersAreFull(h: map<string, seq<Time>>, run: seq<Attempt>)
    ensures |FullAnswers(h, run)| == |run|
    decreases |run|
  {
    if run != [] { AnswersAreFull(FullStep(h, run[0]).1, run[1..]); }
  }

  /** A rule that answers an attempt from the failures of its address so far. */
  type Judge = (seq<Time>, Attempt) -> Answer

  ghost predicate Judges(judge: Judge) {
    forall h, a :: FullStep(h, a).0 == judge(Of(h, a.ip), a)
  }

  /** Answer k of a run on full histories is judged by the failures before it. */
  ghost predicate JudgedAt(judge: Judge, h: map<string, seq<Time>>, run: seq<Attempt>, k: nat) {
    && k < |run| == |FullAnswers(h, run)|
    && FullAnswers(h, run)[k]
    == judge(Of(h, run[k].ip) + Failures(run, FullAnswers(h, run), run[k].ip, k), run[k])
  }

  lemma {:induction false} FullyJudged(judge: Judge, h: map<string, seq<Time>>, run: seq<Attempt>, k: nat)
    requires k < |run| && Judges(judge)
    ensures JudgedAt(judge, h, run, k)
    decreases |run|
  {
    AnswersAreFull(h, run);
    if k == 0 {
      JudgedStart(judge, h, run);
    } else {
      FullyJudged(judge, FullStep(h, run[0]).1, run[1..], k - 1);
      JudgedStep(judge, h, run, k);
    }
  }

  lemma JudgedStart(judge: Judge, h: map<string, seq<Time>>, run: seq<Attempt>)
    requires 0 < |run| == |FullAnswers(h, run)| && Judges(judge)
    ensures JudgedAt(judge, h, run, 0)
  {
    var a, ip := FullAnswers(h, run), run[0].ip;
    var none := Failures(run, a, ip, 0);
    FirstAnswer(h, run);
    assert none == [];
    assert Of(h, ip) + none == Of(h, ip);
  }

  lemma JudgedStep(judge: Judge, h: map<string, seq<Time>>, run: seq<Attempt>, k: nat)
    requires 0 < k < |run| == |FullAnswers(h, run)|
    requires JudgedAt(judge, FullStep(h, run[0]).1, run[1..], k - 1)
    ensures JudgedAt(judge, h, run, k)
  {
    var h', rest, ip := FullStep(h, run[0]).1, run[1..], run[k].ip;
    var a, b := FullAnswers(h, run), FullAnswers(h', rest);
    FirstAnswer(h, run);
    assert a[1..] == b && rest[k - 1] == run[k];
    FailuresAfterFirst(h, run, a, ip, k);
    var before, after := Of(h, ip) + Failures(run, a, ip, k), Of(h', ip) + Failures(rest, b, ip, k - 1);
    assert before == after;
    assert a[k] == b[k - 1];
  }

  lemma JudgedFirst(h: map<string, seq<Time>>, a: Attempt)
    ensures FullStep(h, a).0 == Judged(Of(h, a.ip), a)
  {
    LatelyIsRecent(Of(h, a.ip), a.check);
  }

  lemma FirstAnswer(h: map<string, seq<Time>>, run: seq<Attempt>)
    requires run != []
    ensures FullAnswers(h, run) != [] && FullAnswers(h, run)[0] == FullStep(h, run[0]).0
    ensures FullAnswers(h, run)[1..] == FullAnswers(FullStep(h, run[0]).1, run[1..])
  {
  }

  lemma FailuresAfterFirst(h: map<string, seq<Time>>, run: seq<Attempt>, answers: seq<Answer>, ip: string, k: nat)
    requires 0 < k <= |run| == |answers| && answers[0] == FullStep(h, run[0]).0
    ensures Of(h, ip) + Failures(run, answers, ip, k)
         == Of(FullStep(h, run[0]).1, ip) + Failures(run[1..], answers[1..], ip, k - 1)
  {
    var old_, new_ := Of(h, ip), Of(FullStep(h, run[0]).1, ip);
    var first := if answers[0] == Rejected && run[0].ip == ip then [run[0].record] else [];
    var more := Failures(run[1..], answers[1..], ip, k - 1);
    NextHistory(h, run[0], ip);
    assert new_ == old_ + first && Failures(run, answers, ip, k) == first + more;
    Regrouped(old_, first, more);
  }

  lemma Regrouped(a: seq<Time>, b: seq<Time>, c: seq<Time>)
    ensures (a + b) + c == a + (b + c)
  {
  }

  lemma NextHistory(h: map<string, seq<Time>>, a: Attempt, ip: string)
    ensures var (answer, h') := FullStep(h, a);
            Of(h', ip) == Of(h, ip) + if answer == Rejected && a.ip == ip then [a.record] else []
  {
  }

  /** An attempt is limited exactly if five of the address's attempts before it were rejected
      less than 300 seconds ago; otherwise it is answered by its password, and only a rejected
      one counts later. */
  lemma AttemptsExactly(run: seq<Attempt>, k: nat)
    requires Ordered(run) && k < |run|
    ensures |Answers(map[], run)| == |run|
    ensures var failures := Failures(run, Answers(map[], run), run[k].ip, k);
            Answers(map[], run)[k] == if Lately(failures, run[k].check) >= 5 then Limited
                                      else if run[k].correct then LoggedIn else Rejected
  {
    var judge: Judge := (ts, a) => Judged(ts, a);
    forall h, a ensures FullStep(h, a).0 == judge(Of(h, a.ip), a) {
      JudgedFirst(h, a);
    }
    AnswersFromTheStart(run);
    FullyJudged(judge, map[], run, k);
    var failures := Failures(run, Answers(map[], run), run[k].ip, k);
    assert [] + failures == failures;
  }
}
