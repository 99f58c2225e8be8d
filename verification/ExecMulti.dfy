/** Several commands in one remote call: joined with echoed separators, and split again. */
module ExecMulti {
  import opened Text
  import opened Sequences

  datatype Reply = Reply(ok: bool, out: string, err: string)

  // ---------- Splitting at a string ----------

  /** sep stands in s at position k. */
  predicate At(s: string, sep: string, k: nat) { k + |sep| <= |s| && s[k..k + |sep|] == sep }

  /** `s.find(sep, k)`: the first occurrence at or after k, or the length of s plus one. */
  function Find(s: string, sep: string, k: nat): (r: nat)
    requires k <= |s| + 1
    ensures k <= r <= |s| + 1
    ensures r <= |s| ==> At(s, sep, r)
    ensures forall j :: k <= j < r ==> !At(s, sep, j)
    decreases |s| + 1 - k
  {
    if k > |s| || At(s, sep, k) then k else Find(s, sep, k + 1)
  }

  function First(s: string, sep: string): nat { Find(s, sep, 0) }

  /** `s.split(sep)` */
  function Split(s: string, sep: string): (parts: seq<string>)
    requires sep != []
    ensures |parts| >= 1
    decreases |s|
  {
    var k := First(s, sep);
    if k > |s| then [s] else [s[..k]] + Split(s[k + |sep|..], sep)
  }

  lemma NotAtOtherChar(s: string, sep: string, j: nat)
    requires sep != [] && j < |s| && s[j] != sep[0]
    ensures !At(s, sep, j)
  {
    if j + |sep| <= |s| {
      assert s[j..j + |sep|][0] == s[j];
    }
  }

  lemma FirstUnique(s: string, sep: string, k: nat)
    requires At(s, sep, k) && forall j :: 0 <= j < k ==> !At(s, sep, j)
    ensures First(s, sep) == k
  {
  }

  // ---------- The call ----------

  /** `f" && echo '{sep}' && ".join(commands)` */
  function Combine(commands: seq<string>, sep: string): string {
    if commands == [] then []
    else if |commands| == 1 then commands[0]
    else commands[0] + " && echo '" + sep + "' && " + Combine(commands[1..], sep)
  }

  function StripReply(part: string): Reply { Reply(true, Strip(part), "") }

  /** What a command does on a host in state s. */
  type Exec<!S> = (S, string) -> (Reply, S)

  /** The commands one after the other, and the state they leave. */
  function Each<S>(exec: Exec<S>, s: S, commands: seq<string>): (r: (seq<Reply>, S))
    ensures |r.0| == |commands|
    decreases |commands|
  {
    if commands == [] then ([], s)
    else
      var (reply, s1) := exec(s, commands[0]);
      var (replies, s2) := Each(exec, s1, commands[1..]);
      ([reply] + replies, s2)
  }

  function Results<S>(exec: Exec<S>, s: S, commands: seq<string>, sep: string): (seq<Reply>, S)
    requires sep != []
  {
    if |commands| == 1 then
      var (reply, s1) := exec(s, commands[0]);
      ([reply], s1)
    else
      var (joined, s1) := exec(s, Combine(commands, sep));
      var parts := Split(joined.out, sep);
      if !joined.ok || |parts| < |commands| then Each(exec, s1, commands) else (Map(StripReply, parts), s1)
  }

  /** The executor the manager is given, with the host behind it. */
  class Executor<S> {
    const exec: Exec<S>
    var state: S

    constructor (exec: Exec<S>, state: S)
      ensures this.exec == exec && this.state == state
    {
      this.exec, this.state := exec, state;
    }

    method Send(command: string) returns (reply: Reply)
      modifies this
      ensures (reply, state) == exec(old(state), command)
    {
      var (r, s) := exec(state, command);
      reply, state := r, s;
    }

    method SendEach(commands: seq<string>) returns (replies: seq<Reply>)
      modifies this
      ensures (replies, state) == Each(exec, old(state), commands)
    {
      replies := [];
      var i := 0;
      while i < |commands|
        invariant 0 <= i <= |commands|
        invariant Each(exec, old(state), commands).0 == replies + Each(exec, state, commands[i..]).0
        invariant Each(exec, old(state), commands).1 == Each(exec, state, commands[i..]).1
      {
        assert commands[i..][0] == commands[i] && commands[i..][1..] == commands[i + 1..];
        var reply := Send(commands[i]);
        replies := replies + [reply];
        i := i + 1;
      }
      assert commands[i..] == [] && replies + [] == replies;
    }

    /** `_exec_multi`. Any failure, of the joined command or of the splitting, still gives
        one result for each command: then every command is sent on its own, whatever the
        joined one has done already. */
    method Run(commands: seq<string>, sep: string) returns (results: seq<Reply>)
      requires sep != []
      modifies this
      ensures (results, state) == Results(exec, old(state), commands, sep)
      ensures |results| >= |commands|
      ensures |commands| > 1 && !exec(old(state), Combine(commands, sep)).0.ok ==>
                (results, state) == Each(exec, exec(old(state), Combine(commands, sep)).1, commands)
    {
      if |commands| == 1 {
        var reply := Send(commands[0]);
        results := [reply];
        return;
      }
      var joined := Send(Combine(commands, sep));
      if !joined.ok {
        results := SendEach(commands);
        return;
      }
      var parts := Split(joined.out, sep);
      if |parts| < |commands| {
        results := SendEach(commands);
        return;
      }
      results := [];
      for i := 0 to |parts|
        invariant results == Map(StripReply, parts[..i])
        modifies {}
      {
        MapNext(StripReply, parts, i);
        results := results + [StripReply(parts[i])];
      }
      assert parts[..|parts|] == parts;
    }
  }

  // ---------- What a shell makes of the joined command ----------

  /** A shell runs the commands in turn, printing the separator between them, and stops at
      the first that fails. */
  function Shell<S>(exec: Exec<S>, s: S, commands: seq<string>, sep: string): (Reply, S)
    requires commands != []
    decreases |commands|
  {
    var (reply, s1) := exec(s, commands[0]);
    if |commands| == 1 || !reply.ok then (reply, s1)
    else
      var (more, s2) := Shell(exec, s1, commands[1..], sep);
      (Reply(more.ok, reply.out + (sep + ("\n" + more.out)), reply.err + more.err), s2)
  }

  /** How many commands a shell gets to, the failing one included. */
  function Reached<S>(exec: Exec<S>, s: S, commands: seq<string>): (n: nat)
    ensures n <= |commands| && (commands != [] ==> n > 0)
    decreases |commands|
  {
    if commands == [] then 0
    else
      var (reply, s1) := exec(s, commands[0]);
      if !reply.ok then 1 else 1 + Reached(exec, s1, commands[1..])
  }

  ghost predicate AllOk(replies: seq<Reply>) { forall r :: r in replies ==> r.ok }

  function Out(reply: Reply): string { reply.out }

  lemma EachFirst<S>(exec: Exec<S>, s: S, commands: seq<string>, n: nat)
    requires 0 < n <= |commands|
    ensures Each(exec, s, commands[..n]).1 == Each(exec, exec(s, commands[0]).1, commands[1..][..n - 1]).1
  {
    assert commands[..n][0] == commands[0] && commands[..n][1..] == commands[1..][..n - 1];
  }

  /** The joined command leaves the state of the commands reached; it succeeds exactly if
      all of them do, and then prints their outputs joined. */
  lemma {:induction false} ShellRuns<S>(exec: Exec<S>, s: S, commands: seq<string>, sep: string)
    requires commands != []
    ensures var (joined, s1) := Shell(exec, s, commands, sep);
            var replies := Each(exec, s, commands).0;
            && s1 == Each(exec, s, commands[..Reached(exec, s, commands)]).1
            && (joined.ok <==> AllOk(replies))
            && (joined.ok ==> Reached(exec, s, commands) == |commands| && joined.out == Joined(Map(Out, replies), sep))
    decreases |commands|
  {
    var (reply, s1) := exec(s, commands[0]);
    var rest, n := commands[1..], Reached(exec, s, commands);
    var replies, more := Each(exec, s, commands).0, Each(exec, s1, rest).0;
    assert replies == [reply] + more;
    if !reply.ok || rest == [] {
      assert commands[..n] == [commands[0]] && [commands[0]][1..] == [];
      assert Each(exec, s, [commands[0]]).1 == Each(exec, s1, []).1;
      if rest == [] { MapOne(Out, reply); }
    } else {
      ShellRuns(exec, s1, rest, sep);
      EachFirst(exec, s, commands, n);
      MapCons(Out, reply, more);
    }
  }

  /** On a host whose shell meets a failing command, the fallback runs every command, and
      those up to the failing one for the second time. */
  lemma FallbackRepeats<S>(exec: Exec<S>, s: S, commands: seq<string>, sep: string)
    requires sep != [] && |commands| > 1
    requires exec(s, Combine(commands, sep)) == Shell(exec, s, commands, sep)
    requires !AllOk(Each(exec, s, commands).0)
    ensures var again := Each(exec, s, commands[..Reached(exec, s, commands)]).1;
            Results(exec, s, commands, sep) == Each(exec, again, commands)
  {
    ShellRuns(exec, s, commands, sep);
  }

  // ---------- When the outputs come back ----------

  /** What the shell prints when every command succeeds: echo adds a newline. */
  function Joined(outs: seq<string>, sep: string): string {
    if outs == [] then []
    else if |outs| == 1 then outs[0]
    else outs[0] + (sep + ("\n" + Joined(outs[1..], sep)))
  }

  /** The separator printed behind an output is the first one to be seen there, and the
      last output holds none. */
  predicate Separable(outs: seq<string>, sep: string) {
    && (forall i :: 0 <= i < |outs| - 1 ==> First(outs[i] + sep, sep) == |outs[i]|)
    && (outs != [] ==> First(outs[|outs| - 1], sep) > |outs[|outs| - 1]|)
  }

  /** Outputs of commands that end their lines: nothing, or text ending in a newline. */
  predicate Lines(out: string) { out == [] || out[|out| - 1] == '\n' }

  /** All outputs end their lines and hold no separator. */
  predicate Finished(outs: seq<string>, sep: string) {
    forall i :: 0 <= i < |outs| ==> Lines(outs[i]) && First(outs[i], sep) > |outs[i]|
  }

  /** A separator without a newline cannot straddle the end of a finished line, so
      outputs that end their lines and hold no separator are separable, however the
      separator overlaps itself. */
  lemma FinishedLinesAreSeparable(outs: seq<string>, sep: string)
    requires sep != [] && '\n' !in sep && Finished(outs, sep)
    ensures Separable(outs, sep)
  {
    forall i | 0 <= i < |outs| - 1 ensures First(outs[i] + sep, sep) == |outs[i]| {
      var out := outs[i];
      var s := out + sep;
      assert At(s, sep, |out|);
      forall j | 0 <= j < |out| ensures !At(s, sep, j) {
        if j + |sep| <= |out| {
          assert s[j..j + |sep|] == out[j..j + |sep|];
          assert !At(out, sep, j);
        } else {
          assert s[|out| - 1] == '\n';
          assert s[j..j + |sep|][|out| - 1 - j] == '\n';
        }
      }
      FirstUnique(s, sep, |out|);
    }
  }

  /** The splitting never yields fewer parts than there were commands. */
  lemma {:induction false} EnoughParts(x: string, outs: seq<string>, sep: string)
    requires sep != [] && outs != []
    ensures |Split(x + Joined(outs, sep), sep)| >= |outs|
    decreases |x + Joined(outs, sep)|
  {
    if |outs| > 1 {
      var a, more := x + outs[0], "\n" + Joined(outs[1..], sep);
      var s := x + Joined(outs, sep);
      assert s == a + sep + more;
      assert At(s, sep, |a|);
      var k := First(s, sep);
      var left := s[k + |sep|..];
      if k + |sep| <= |a| {
        var y := a[k + |sep|..];
        assert left == y + (sep + more);
        assert ([y] + outs[1..])[1..] == outs[1..];
        assert left == [] + Joined([y] + outs[1..], sep);
        EnoughParts([], [y] + outs[1..], sep);
      } else {
        var y := sep[k + |sep| - |a|..] + "\n";
        assert left == y + Joined(outs[1..], sep);
        EnoughParts(y, outs[1..], sep);
      }
    }
  }

  /** An occurrence that starts in front of the first printed separator ends within it,
      and starts at a non-space. */
  lemma FirstInFront(pre: string, out: string, sep: string, more: string)
    requires sep != [] && !IsSpace(sep[0]) && forall c :: c in pre ==> IsSpace(c)
    ensures var s := pre + out + sep + more;
            First(s, sep) == |pre| + First(out + sep, sep) <= |pre| + |out|
  {
    var s, t := pre + out + sep + more, out + sep;
    assert At(t, sep, |out|);
    var k := First(t, sep);
    forall j | 0 <= j < |pre| ensures !At(s, sep, j) {
      assert s[j] == pre[j] && pre[j] in pre;
      NotAtOtherChar(s, sep, j);
    }
    assert s == pre + (t + more);
    forall j | 0 <= j <= |out| ensures At(s, sep, |pre| + j) <==> At(t, sep, j) {
      AtInside(pre, t, more, sep, j);
    }
    forall j | 0 <= j < |pre| + k ensures !At(s, sep, j) {
      if j >= |pre| { assert !At(t, sep, j - |pre|); }
    }
    FirstUnique(s, sep, |pre| + k);
  }

  lemma AtInside(pre: string, t: string, more: string, sep: string, j: nat)
    requires j + |sep| <= |t|
    ensures At(pre + (t + more), sep, |pre| + j) <==> At(t, sep, j)
  {
    var s := pre + (t + more);
    assert s[|pre| + j..|pre| + j + |sep|] == t[j..j + |sep|];
  }

  lemma FirstInLast(pre: string, out: string, sep: string)
    requires sep != [] && !IsSpace(sep[0]) && forall c :: c in pre ==> IsSpace(c)
    ensures First(pre + out, sep) > |pre + out| <==> First(out, sep) > |out|
  {
    var s := pre + out;
    forall j | 0 <= j < |pre| ensures !At(s, sep, j) {
      assert s[j] == pre[j] && pre[j] in pre;
      NotAtOtherChar(s, sep, j);
    }
    forall j | 0 <= j <= |out| ensures At(s, sep, |pre| + j) <==> At(out, sep, j) {
      if j + |sep| <= |out| {
        AtInside(pre, out, [], sep, j);
        assert pre + (out + []) == s;
      }
    }
    if First(s, sep) <= |s| {
      assert At(out, sep, First(s, sep) - |pre|);
    }
    if First(out, sep) <= |out| {
      assert At(s, sep, |pre| + First(out, sep));
    }
  }

  ghost predicate Spaces(s: string) { forall c :: c in s ==> IsSpace(c) }

  ghost predicate IgnoresSpaces<A>(f: string -> A, pre: string, s: string) { f(pre + s) == f(s) }

  ghost predicate SeesCut<A>(f: string -> A, s: string, k: nat)
    requires k <= |s|
  {
    f(s[..k]) != f(s)
  }

  /** What matters of stripping: white space in front is ignored, and a string cut in front
      of one of its other characters is told from the whole. */
  ghost predicate StripsLike<A>(f: string -> A) {
    && (forall pre, s :: Spaces(pre) ==> IgnoresSpaces(f, pre, s))
    && (forall s, k: nat :: k < |s| && !IsSpace(s[k]) ==> SeesCut(f, s, k))
  }

  lemma ReplyStripsLike()
    ensures StripsLike(StripReply)
  {
    forall pre, s | Spaces(pre) ensures IgnoresSpaces(StripReply, pre, s) {
      StripLeftPast(pre, s);
    }
    forall s, k: nat | k < |s| && !IsSpace(s[k]) ensures SeesCut(StripReply, s, k) {
      CutChangesStrip(s, k);
    }
  }

  lemma {:induction false} SplitGivesOutputs<A>(f: string -> A, pre: string, outs: seq<string>, sep: string)
    requires StripsLike(f) && outs != [] && sep != [] && !IsSpace(sep[0]) && Spaces(pre)
    ensures Map(f, Split(pre + Joined(outs, sep), sep)) == Map(f, outs) <==> Separable(outs, sep)
    decreases |outs|
  {
    if |outs| == 1 {
      SplitLast(f, pre, outs[0], sep);
      assert outs == [outs[0]];
    } else {
      SplitOnce(f, pre, outs, sep);
      SplitGivesOutputs(f, "\n", outs[1..], sep);
      SeparableRest(outs, sep);
    }
  }

  lemma SplitOnce<A>(f: string -> A, pre: string, outs: seq<string>, sep: string)
    requires StripsLike(f) && |outs| > 1 && sep != [] && !IsSpace(sep[0]) && Spaces(pre)
    ensures Map(f, Split(pre + Joined(outs, sep), sep)) == Map(f, outs)
       <==> && First(outs[0] + sep, sep) == |outs[0]|
            && Map(f, Split("\n" + Joined(outs[1..], sep), sep)) == Map(f, outs[1..])
  {
    var part, more := SplitHead(f, pre, outs, sep);
    assert outs == [outs[0]] + outs[1..];
    MapFirst(f, part, more, outs[0], outs[1..]);
  }

  lemma SplitLast<A>(f: string -> A, pre: string, out: string, sep: string)
    requires StripsLike(f) && sep != [] && !IsSpace(sep[0]) && Spaces(pre)
    ensures Map(f, Split(pre + out, sep)) == Map(f, [out]) <==> Separable([out], sep)
  {
    FirstInLast(pre, out, sep);
    SplitInOne(f, pre + out, sep);
    assert IgnoresSpaces(f, pre, out);
    MapOne(f, out);
    assert [out][0] == out;
  }

  lemma SplitInOne<A>(f: string -> A, s: string, sep: string)
    requires sep != []
    ensures First(s, sep) > |s| ==> Map(f, Split(s, sep)) == [f(s)]
    ensures First(s, sep) <= |s| ==> |Map(f, Split(s, sep))| > 1
  {
    if First(s, sep) > |s| {
      assert Split(s, sep) == [s];
      MapOne(f, s);
    }
  }

  /** The first part strips to the first output exactly if it was not cut short. */
  lemma HeadStrips<A>(f: string -> A, pre: string, out: string, sep: string)
    requires StripsLike(f) && sep != [] && !IsSpace(sep[0]) && Spaces(pre)
    requires First(out + sep, sep) <= |out|
    ensures var k := First(out + sep, sep);
            f((pre + out)[..|pre| + k]) == f(out) <==> k == |out|
  {
    var k := First(out + sep, sep);
    assert (pre + out)[..|pre| + k] == pre + out[..k];
    assert IgnoresSpaces(f, pre, out[..k]);
    if k == |out| {
      assert out[..k] == out;
    } else {
      assert (out + sep)[k..k + |sep|][0] == out[k] == sep[0];
      assert SeesCut(f, out, k);
    }
  }

  /** The first part, and the split of what follows it. */
  lemma SplitHead<A>(f: string -> A, pre: string, outs: seq<string>, sep: string)
    returns (part: string, more: seq<string>)
    requires StripsLike(f) && |outs| > 1 && sep != [] && !IsSpace(sep[0]) && Spaces(pre)
    ensures Split(pre + Joined(outs, sep), sep) == [part] + more
    ensures f(part) == f(outs[0]) <==> First(outs[0] + sep, sep) == |outs[0]|
    ensures First(outs[0] + sep, sep) == |outs[0]| ==> more == Split("\n" + Joined(outs[1..], sep), sep)
  {
    var out, rest := outs[0], "\n" + Joined(outs[1..], sep);
    assert pre + Joined(outs, sep) == pre + out + sep + rest;
    part, more := SplitBehindFirst(pre, out, sep, rest);
    HeadStrips(f, pre, out, sep);
  }

  lemma SplitBehindFirst(pre: string, out: string, sep: string, rest: string) returns (part: string, more: seq<string>)
    requires sep != [] && !IsSpace(sep[0]) && forall c :: c in pre ==> IsSpace(c)
    ensures First(out + sep, sep) <= |out|
    ensures part == (pre + out)[..|pre| + First(out + sep, sep)]
    ensures Split(pre + out + sep + rest, sep) == [part] + more
    ensures First(out + sep, sep) == |out| ==> more == Split(rest, sep)
  {
    var s, a := pre + out + sep + rest, pre + out;
    FirstInFront(pre, out, sep, rest);
    var k := |pre| + First(out + sep, sep);
    part, more := a[..k], Split(s[k + |sep|..], sep);
    Cut(a, sep, rest, k);
  }

  lemma Cut(a: string, sep: string, rest: string, k: nat)
    requires k <= |a|
    ensures (a + sep + rest)[..k] == a[..k]
    ensures k == |a| ==> (a + sep + rest)[k + |sep|..] == rest
  {
  }

  lemma SeparableRest(outs: seq<string>, sep: string)
    requires |outs| > 1
    ensures Separable(outs, sep) <==> First(outs[0] + sep, sep) == |outs[0]| && Separable(outs[1..], sep)
  {
    var rest := outs[1..];
    assert forall i :: 0 <= i < |rest| ==> rest[i] == outs[i + 1];
    if First(outs[0] + sep, sep) == |outs[0]| && Separable(rest, sep) {
      forall i | 0 <= i < |outs| - 1 ensures First(outs[i] + sep, sep) == |outs[i]| {
        if i > 0 { assert outs[i] == rest[i - 1]; }
      }
    }
  }

  /** When all of two or more commands succeed, each runs once, and the results are the
      stripped outputs, one for each command in order, exactly if the outputs are separable. */
  lemma ResultsAreOutputsExactly<S>(exec: Exec<S>, s: S, commands: seq<string>, sep: string)
    requires sep != [] && !IsSpace(sep[0]) && |commands| >= 2
    requires exec(s, Combine(commands, sep)) == Shell(exec, s, commands, sep)
    requires AllOk(Each(exec, s, commands).0)
    ensures var outs := Map(Out, Each(exec, s, commands).0);
            var (results, s1) := Results(exec, s, commands, sep);
            && s1 == Each(exec, s, commands).1
            && (results == Map(StripReply, outs) <==> Separable(outs, sep))
  {
    var outs := Map(Out, Each(exec, s, commands).0);
    ShellRuns(exec, s, commands, sep);
    assert commands[..|commands|] == commands;
    assert [] + Joined(outs, sep) == Joined(outs, sep);
    EnoughParts([], outs, sep);
    ReplyStripsLike();
    SplitGivesOutputs(StripReply, [], outs, sep);
  }

  const SEP := "___SEP___"

  /** The separator in use has no newline and begins with no white space. */
  lemma SepIsPlain()
    ensures SEP != [] && !IsSpace(SEP[0]) && '\n' !in SEP
  {
    assert SEP[0] == '_' && forall c :: c in SEP ==> c == '_' || c == 'S' || c == 'E' || c == 'P';
  }

  /** With such a separator, outputs that end their lines and do not hold it come back. */
  lemma FinishedLinesComeBack<S>(exec: Exec<S>, s: S, commands: seq<string>, sep: string)
    requires sep != [] && !IsSpace(sep[0]) && '\n' !in sep
    requires |commands| >= 2 && exec(s, Combine(commands, sep)) == Shell(exec, s, commands, sep)
    requires AllOk(Each(exec, s, commands).0) && Finished(Map(Out, Each(exec, s, commands).0), sep)
    ensures var (replies, s1) := Each(exec, s, commands);
            Results(exec, s, commands, sep) == (Map(StripReply, Map(Out, replies)), s1)
  {
    FinishedLinesAreSeparable(Map(Out, Each(exec, s, commands).0), sep);
    ResultsAreOutputsExactly(exec, s, commands, sep);
  }

  /** These results are successes, each with its command's output stripped and no error. */
  lemma StrippedOutputs(replies: seq<Reply>, i: nat)
    requires i < |replies|
    ensures Map(StripReply, Map(Out, replies))[i] == Reply(true, Strip(replies[i].out), "")
  {
    MapAt(Out, replies, i);
    MapAt(StripReply, Map(Out, replies), i);
  }

  // ---------- The text of the joined command ----------

  /** Commands joined by `&&`. */
  function AndLine(commands: seq<string>): string {
    if commands == [] then []
    else if |commands| == 1 then commands[0]
    else commands[0] + " && " + AndLine(commands[1..])
  }

  function Echo(sep: string): string { "echo '" + sep + "'" }

  /** The commands with an echo of the separator between any two. */
  function WithEchos(commands: seq<string>, sep: string): seq<string> {
    if |commands| <= 1 then commands else [commands[0], Echo(sep)] + WithEchos(commands[1..], sep)
  }

  lemma AndLineTwo(a: string, b: string, rest: seq<string>)
    requires rest != []
    ensures AndLine([a, b] + rest) == a + " && " + (b + " && " + AndLine(rest))
  {
    var all := [a, b] + rest;
    assert all[1..] == [b] + rest && ([b] + rest)[1..] == rest;
  }

  lemma {:induction false} CombineIsAndLine(commands: seq<string>, sep: string)
    ensures Combine(commands, sep) == AndLine(WithEchos(commands, sep))
    ensures commands != [] ==> WithEchos(commands, sep) != []
  {
    if |commands| > 1 {
      CombineIsAndLine(commands[1..], sep);
      var more := AndLine(WithEchos(commands[1..], sep));
      AndLineTwo(commands[0], Echo(sep), WithEchos(commands[1..], sep));
      EchoInside(commands[0], sep, more);
    }
  }

  lemma EchoInside(a: string, sep: string, more: string)
    ensures a + " && echo '" + sep + "' && " + more == a + " && " + (Echo(sep) + " && " + more)
  {
    assert " && echo '" == " && " + "echo '" && "' && " == "'" + " && ";
  }

  /** What a shell does with commands joined by `&&`: each in turn while they succeed, the
      outputs one after the other. */
  function AndRun<S>(exec: Exec<S>, s: S, commands: seq<string>): (Reply, S)
    requires commands != []
    decreases |commands|
  {
    var (reply, s1) := exec(s, commands[0]);
    if |commands| == 1 || !reply.ok then (reply, s1)
    else
      var (more, s2) := AndRun(exec, s1, commands[1..]);
      (Reply(more.ok, reply.out + more.out, reply.err + more.err), s2)
  }

  /** echo prints the separator and a newline and changes nothing. */
  ghost predicate Echoes<S(!new)>(exec: Exec<S>, sep: string) {
    forall s :: exec(s, Echo(sep)) == (Reply(true, sep + "\n", ""), s)
  }

  lemma {:induction false} AndRunIsShell<S(!new)>(exec: Exec<S>, s: S, commands: seq<string>, sep: string)
    requires commands != [] && Echoes(exec, sep)
    ensures WithEchos(commands, sep) != []
    ensures AndRun(exec, s, WithEchos(commands, sep)) == Shell(exec, s, commands, sep)
    decreases |commands|
  {
    if |commands| > 1 {
      var (reply, s1) := exec(s, commands[0]);
      var rest := WithEchos(commands[1..], sep);
      var all := [commands[0], Echo(sep)] + rest;
      AndRunIsShell(exec, s1, commands[1..], sep);
      assert all[1..] == [Echo(sep)] + rest && ([Echo(sep)] + rest)[1..] == rest;
      if reply.ok {
        EchoFirst(exec, s1, rest, sep);
        var more := AndRun(exec, s1, rest).0;
        assert reply.out + (sep + "\n" + more.out) == reply.out + (sep + ("\n" + more.out));
        assert "" + more.err == more.err;
      }
    }
  }

  lemma EchoFirst<S(!new)>(exec: Exec<S>, s: S, rest: seq<string>, sep: string)
    requires rest != [] && Echoes(exec, sep)
    ensures var (more, s') := AndRun(exec, s, rest);
            AndRun(exec, s, [Echo(sep)] + rest) == (Reply(more.ok, sep + "\n" + more.out, "" + more.err), s')
  {
    assert exec(s, Echo(sep)) == (Reply(true, sep + "\n", ""), s);
    assert ([Echo(sep)] + rest)[1..] == rest;
  }

  /** So on a host whose shell runs a line of commands joined by `&&` as such, and whose echo
      prints the separator, the joined command does what the results are about. */
  lemma CombinedIsShell<S(!new)>(exec: Exec<S>, s: S, commands: seq<string>, sep: string)
    requires commands != [] && Echoes(exec, sep) && WithEchos(commands, sep) != []
    requires exec(s, AndLine(WithEchos(commands, sep))) == AndRun(exec, s, WithEchos(commands, sep))
    ensures exec(s, Combine(commands, sep)) == Shell(exec, s, commands, sep)
  {
    CombineIsAndLine(commands, sep);
    AndRunIsShell(exec, s, commands, sep);
  }
}
