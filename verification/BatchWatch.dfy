/**
 The watcher thread of image/runner.py and what its answer is for: a child that writes too
 much is killed soon, and is told so.  The thread is served promptly when each of its calls
 returns within `delay` seconds of the moment at which it can.
 */
module BatchWatch {
  import opened Options
  import opened Processes
  import opened Rounding
  import opened Verdicts
  import Results
  import opened BatchMachine
  import opened BatchTiming
  import opened BatchBlame

  /** The bookkeeping of the thread; before it is stopped it only ever answers yes. */
  ghost predicate Watching(s: State) {
    && s.hist.watched <= s.world.clock
    && (s.watcher.phase.Ended? <==> s.watcher.result.Some?)
    && (s.watcher.phase.WaitStop? ==> s.watcher.wake == s.hist.watched + 0.05)
    && (!s.vars.stop && s.watcher.phase.Returning? ==> s.watcher.phase.result)
    && (!s.vars.stop && s.watcher.result.Some? ==> s.watcher.result == Some(true))
    && (s.vars.stop ==> s.vars.joinBy <= s.world.clock + JOIN)
    && (Looping(s.pc) || s.pc.AwaitChild? || s.pc.StampWall? || s.pc.SetStop? ==> !s.vars.stop)
    && (s.pc.JoinWatcher? || s.pc.KillLeft? || s.pc.FinalCheck? || s.pc.Done? ==> s.vars.stop)
  }

  lemma ProgKeepsWatching(c: Params, s: State)
    requires Watching(s) && Enabled(s)
    ensures Watching(Prog(c, s))
  {
  }

  lemma WatchKeepsWatching(c: Params, s: State)
    requires Watching(s) && WatchEnabled(s)
    ensures Watching(Watch(c, s))
  {
  }

  lemma NextKeepsWatching(c: Params, s: State, s': State)
    requires Watching(s) && Next(c, s, s')
    ensures Watching(s')
  {
    if Enabled(s) && s' == Prog(c, s) {
      ProgKeepsWatching(c, s);
    } else if WatchEnabled(s) && s' == Watch(c, s) {
      WatchKeepsWatching(c, s);
    }
  }

  lemma {:induction false} RunWatching(c: Params, run: seq<State>)
    requires IsRun(c, run)
    ensures forall i :: 0 <= i < |run| ==> Watching(run[i])
  {
    for i := 1 to |run|
      invariant forall k :: 0 <= k < i ==> Watching(run[k])
    {
      assert Next(c, run[i - 1], run[i - 1 + 1]);
      NextKeepsWatching(c, run[i - 1], run[i]);
    }
  }

  /** The watcher's answer is acted on: when it has reported an excess by the time the loop
      looks, the loop goes no further round, and this excess is why the child is killed. */
  lemma {:induction false} AnswerIsActedOn(c: Params, run: seq<State>, i: nat, k: nat)
    requires IsRun(c, run) && i <= k < |run|
    requires run[i].pc == TestWatcher && run[i].watcher.result == Some(true) && !run[i].vars.timedOut
    ensures !run[k].vars.timedOut && run[k].hist.iterations == run[i].hist.iterations
    ensures if run[k].pc == TestWatcher then run[k].watcher.result == Some(true)
            else run[k].vars.exceeded && run[k].hist.sentKill && !Looping(run[k].pc)
    decreases k
  {
    RunWatching(c, run);
    if i < k {
      AnswerIsActedOn(c, run, i, k - 1);
      assert Next(c, run[k - 1], run[k - 1 + 1]) && Watching(run[k - 1]);
    }
  }

  // ----- a thread that is served promptly

  function Later(x: real, y: real): real { if x < y then y else x }

  ghost predicate WatcherPromptAt(h: Host, s: State) {
    match s.watcher.phase
    case WaitStop =>
      && s.world.clock <= s.watcher.wake + h.delay
      && (s.vars.stop ==> s.world.clock <= Later(s.hist.watched, s.vars.joinBy - JOIN) + h.delay)
    case Ended => true
    case _ => s.world.clock <= s.hist.watched + h.delay
  }

  /** Both threads are served promptly. */
  ghost predicate BothPrompt(h: Host, run: seq<State>) {
    h.Valid() && Prompt(h, run) && forall i :: 0 <= i < |run| ==> WatcherPromptAt(h, run[i])
  }

  // ----- the excess is answered

  /** The latest time at which an excess that exists at `t` is reported. */
  function Reported(h: Host, t: real): real { t + 0.05 + 3.0 * h.delay }

  /** The file is over the limit since `t`: how far the watcher has got. */
  ghost predicate Noticed(c: Params, h: Host, t: real, s: State) {
    && Over(c.outputLimit, s.world.file)
    && (Looping(s.pc) ==>
          match s.watcher.phase
          case WaitStop => s.watcher.wake <= t + 0.05
          case CheckSize => s.hist.watched <= t + 0.05 + h.delay
          case Returning(result) => result && s.hist.watched <= t + 0.05 + 2.0 * h.delay
          case Ended => s.watcher.result == Some(true))
  }

  /** The same, for the main loop. */
  ghost predicate Reacting(c: Params, h: Host, t: real, s: State) {
    var r := Reported(h, t);
    && !s.vars.timedOut
    && match s.pc
       case TestDeadline => s.hist.entered <= r && s.vars.now <= r
       case Sleeping => s.hist.entered <= r + h.delay
       case PollChild => s.hist.entered <= r + 2.0 * h.delay + 0.002
       case SampleNow => s.hist.entered <= r + 3.0 * h.delay + 0.002
       case TestWatcher => s.hist.entered <= r + 4.0 * h.delay + 0.002
       case AwaitChild => s.hist.entered <= r + 5.0 * h.delay + 0.002
       case StampWall => s.hist.entered <= r + 5.0 * h.delay + 0.002 + h.reap
       case _ => s.vars.wall.Some? && s.vars.wall.value <= r + 6.0 * h.delay + 0.002 + h.reap - c.started
  }

  ghost predicate Answered(c: Params, h: Host, t: real, s: State) {
    Noticed(c, h, t, s) && Reacting(c, h, t, s) && (s.pc.Done? ==> s.vars.exceeded)
  }

  lemma ProgKeepsNoticed(c: Params, h: Host, t: real, s: State)
    requires h.Valid() && Inv(c, s) && Watching(s) && Noticed(c, h, t, s) && Enabled(s)
    ensures Noticed(c, h, t, Prog(c, s))
  {
  }

  lemma ProgKeepsReacting(c: Params, h: Host, t: real, s: State)
    requires h.Valid() && Reported(h, t) < c.Deadline()
    requires Inv(c, s) && Watching(s) && PromptAt(h, s) && WatcherPromptAt(h, s)
    requires Noticed(c, h, t, s) && Reacting(c, h, t, s) && Enabled(s)
    ensures Reacting(c, h, t, Prog(c, s))
  {
  }

  lemma WatchKeepsAnswered(c: Params, h: Host, t: real, s: State)
    requires h.Valid() && Watching(s) && WatcherPromptAt(h, s) && Answered(c, h, t, s) && WatchEnabled(s)
    ensures Answered(c, h, t, Watch(c, s))
  {
  }

  lemma NextKeepsAnswered(c: Params, h: Host, t: real, s: State, s': State)
    requires h.Valid() && Reported(h, t) < c.Deadline()
    requires Inv(c, s) && Watching(s) && PromptAt(h, s) && WatcherPromptAt(h, s)
    requires Answered(c, h, t, s) && Next(c, s, s') && Grows(s, s')
    ensures Answered(c, h, t, s')
  {
    if Enabled(s) && s' == Prog(c, s) {
      ProgKeepsNoticed(c, h, t, s);
      ProgKeepsReacting(c, h, t, s);
    } else if WatchEnabled(s) && s' == Watch(c, s) {
      WatchKeepsAnswered(c, h, t, s);
    }
  }

  lemma StartsAnswered(c: Params, h: Host, s: State)
    requires h.Valid() && Reported(h, s.world.clock) < c.Deadline()
    requires Inv(c, s) && Watching(s) && Looping(s.pc) && Over(c.outputLimit, s.world.file)
    ensures Answered(c, h, s.world.clock, s)
  {
  }

  lemma StepKeepsAnswered(c: Params, h: Host, run: seq<State>, t: real, k: nat)
    requires c.Valid() && IsRun(c, run) && GrowOnly(run) && BothPrompt(h, run) && 0 < k < |run|
    requires Reported(h, t) < c.Deadline() && Answered(c, h, t, run[k - 1])
    ensures Answered(c, h, t, run[k])
  {
    RunInv(c, run);
    RunWatching(c, run);
    assert Next(c, run[k - 1], run[k - 1 + 1]) && Grows(run[k - 1], run[k - 1 + 1]);
    hide Inv, Watching, Answered, Next, Grows, Noticed, Reacting;
    NextKeepsAnswered(c, h, t, run[k - 1], run[k]);
  }

  lemma {:induction false} StaysAnswered(c: Params, h: Host, run: seq<State>, t: real, i: nat, k: nat)
    requires c.Valid() && IsRun(c, run) && GrowOnly(run) && BothPrompt(h, run) && i <= k < |run|
    requires Reported(h, t) < c.Deadline() && Answered(c, h, t, run[i])
    ensures Answered(c, h, t, run[k])
    decreases k
  {
    hide *;
    if i < k {
      StaysAnswered(c, h, run, t, i, k - 1);
      StepKeepsAnswered(c, h, run, t, k);
    }
  }

  /** A child whose output is over the limit, early enough before its time limit, is a wrong
      answer for that very reason: within a watch of 50 ms and a round of 2 ms, and the calls
      of the host, it is killed, and it is not taken for slow or for crashed. */
  lemma OverflowIsWrongAnswer(j: Judged, h: Host, i: nat)
    requires j.Valid() && GrowOnly(j.run) && BothPrompt(h, j.run)
    requires i < |j.run| && Looping(j.run[i].pc) && Over(j.Params().outputLimit, j.run[i].world.file)
    requires var t := j.run[i].world.clock - j.started;
             && t + 0.05 + 3.0 * h.delay < Milli(j.limits.hardKill)
             && t + 0.052 + 9.0 * h.delay + h.reap + 0.0000005 <= j.limits.limit
    ensures j.Outcome() == (WrongAnswer, Results.OutputOverLimit)
    ensures j.Ran() <= j.run[i].world.clock - j.started + 0.052 + 9.0 * h.delay + h.reap
  {
    FinishedHasRecord(j);
    RunInv(j.Params(), j.run);
    RunWatching(j.Params(), j.run);
    var t := j.run[i].world.clock;
    StartsAnswered(j.Params(), h, j.run[i]);
    StaysAnswered(j.Params(), h, j.run, t, i, |j.run| - 1);
    RoundingError(j.End().vars.wall.value);
  }

  // ----- the thread is over before the record is written

  /** How far a stopped thread has got. */
  ghost predicate Stopping(h: Host, s: State) {
    s.vars.stop ==>
      var since := s.vars.joinBy - JOIN;
      && (match s.watcher.phase
          case WaitStop => s.hist.watched <= since + h.delay
          case CheckSize => s.hist.watched <= since
          case Returning(_) => s.hist.watched <= since + 2.0 * h.delay
          case Ended => true)
      && (!s.pc.JoinWatcher? ==> s.watcher.phase.Ended?)
  }

  lemma NextKeepsStopping(c: Params, h: Host, s: State, s': State)
    requires h.Valid() && 3.0 * h.delay < 1.0
    requires Watching(s) && WatcherPromptAt(h, s) && Stopping(h, s) && Next(c, s, s')
    ensures Stopping(h, s')
  {
  }

  /** A thread that is served promptly has ended when the record is written, so that nobody
      looks at the output any more. */
  lemma WatcherIsJoined(c: Params, h: Host, run: seq<State>)
    requires Finished(c, run) && BothPrompt(h, run) && 3.0 * h.delay < 1.0
    ensures Last(run).watcher.phase.Ended? && Last(run).watcher.result.Some?
  {
    RunWatching(c, run);
    for i := 1 to |run|
      invariant forall k :: 0 <= k < i ==> Stopping(h, run[k])
    {
      assert Next(c, run[i - 1], run[i - 1 + 1]);
      NextKeepsStopping(c, h, run[i - 1], run[i]);
    }
  }
}
