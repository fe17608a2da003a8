/**
 From a batch run to its verdict: the record the supervisor writes
 (image/runner.py:117-125), the parameters the judge passes
 (src/icpc_verify/judge.py:169-195) and `classify_run`.
 */
module BatchBlame {
  import opened Options
  import opened Processes
  import opened Rounding
  import Comparator
  import opened TimeLimits
  import opened Verdicts
  import opened Results
  import opened BatchMachine
  import opened BatchTiming

  function JudgeParams(limits: TimeLimits, outputLimitMib: nat, started: real, launched: real): Params {
    Params(started, launched, Milli(limits.hardKill), outputLimitMib * 1024 * 1024)
  }

  ghost predicate HasRecord(s: State) {
    s.vars.wall.Some? && s.vars.status.Some? && s.vars.usage.Some? && s.world.child.Reaped?
  }

  /** The record of the supervisor together with the out-of-memory flag of the container. */
  function Measurement(s: State, oomKilled: bool): RunMeasurement
    requires HasRecord(s)
  {
    RunMeasurement(
      Micro(s.vars.wall.value), Micro(s.vars.usage.value.cpu), s.vars.usage.value.maxRssKib,
      ExitCode(s.vars.status.value), TermSignal(s.vars.status.value),
      s.vars.timedOut, s.vars.exceeded, oomKilled)
  }

  /** A complete run under the judge's parameters, with what the judge adds to it. */
  datatype Judged = Judged(
    limits: TimeLimits, outputLimitMib: nat, started: real, launched: real, run: seq<State>,
    oomKilled: bool, compareOk: bool, compareMessage: Comparator.Message)
  {
    function Params(): Params { JudgeParams(limits, outputLimitMib, started, launched) }

    ghost predicate Valid() {
      limits.Valid() && started <= launched && Finished(Params(), run)
    }
    function End(): State
      requires 0 < |run|
    {
      Last(run)
    }
    ghost function Outcome(): (Verdict, Message)
      requires Valid()
    {
      FinishedHasRecord(this);
      ClassifyRun(Measurement(End(), oomKilled), limits, compareOk, compareMessage)
    }
    ghost function Verdict(): Verdict
      requires Valid()
    {
      Outcome().0
    }
    /** The wall time as reported. */
    ghost function Wall(): real
      requires Valid()
    {
      FinishedHasRecord(this);
      Micro(End().vars.wall.value)
    }
    /** How long the solution really ran, counted from the start of the clock. */
    ghost function Ran(): real
      requires Valid()
    {
      FinishedHasRecord(this);
      End().world.child.at - started
    }
  }

  lemma FinishedHasRecord(j: Judged)
    requires j.limits.Valid() && j.started <= j.launched && Finished(j.Params(), j.run)
    ensures HasRecord(j.End()) && Inv(j.Params(), j.End())
  {
    RunInv(j.Params(), j.run);
  }

  /** The child is waited for exactly once and the loop takes a bounded number of rounds. */
  lemma ReapedOnceInBoundedRounds(j: Judged)
    requires j.Valid()
    ensures j.End().hist.reaps == 1 && j.End().hist.iterations <= RoundBound(j.Params())
  {
    FinishedHasRecord(j);
  }

  /**
   Blame is sound on every interleaving of main loop, watcher and world.  A child the
   supervisor killed is TLE or an output-limit WA, never a crash and never a comparison;
   a crash or a compared verdict is about the child's own end, in time and in size.  While
   the output file only grows, a child is killed only if it ran to the hard kill or wrote
   more than the limit.
   */
  lemma BlameIsSound(j: Judged)
    requires j.Valid()
    ensures var s, v := j.End(), j.Verdict();
            && (v.TimeLimitExceeded? <==> s.vars.timedOut || j.limits.limit < j.Wall())
            && (s.vars.timedOut ==> s.vars.wall.Some? && Milli(j.limits.hardKill) <= s.vars.wall.value)
            && (s.world.child.killed ==> v.TimeLimitExceeded? || j.Outcome() == (WrongAnswer, OutputOverLimit))
            && (s.world.child.killed && GrowOnly(j.run) ==>
                  Milli(j.limits.hardKill) <= j.Ran() || Over(j.Params().outputLimit, s.world.file))
            && (v.RunTimeError? || v.Accepted? || j.Outcome().1.OutputDiffers? ==>
                  !s.world.child.killed && !s.vars.timedOut && !s.vars.exceeded && j.Wall() <= j.limits.limit)
            && !v.JudgeError? && !v.NotRun? && !v.CompilerError?
  {
    FinishedHasRecord(j);
    if GrowOnly(j.run) {
      GrowOnlyHonest(j.Params(), j.run);
    }
  }

  /** The child ended by itself within the time and output limits. */
  ghost predicate InTime(j: Judged)
    requires j.Valid()
  {
    var s := j.End();
    !s.vars.timedOut && !s.vars.exceeded && !s.world.child.killed && j.Wall() <= j.limits.limit
  }

  /** Each verdict about a run within the limits, with its exact cause. */
  lemma AnswerVerdictsExactly(j: Judged)
    requires j.Valid()
    ensures j.End().world.child.Reaped?
    ensures var own := j.End().world.child.status;
            && (j.Verdict().Accepted? <==> InTime(j) && !j.oomKilled && own == Exited(0) && j.compareOk)
            && (j.Verdict().RunTimeError? <==> InTime(j) && (j.oomKilled || own != Exited(0)))
  {
    FinishedHasRecord(j);
  }

  /** The message says why: it is chosen by the verdict's own cause and carries its figures. */
  lemma MessageSaysWhy(j: Judged)
    requires j.Valid()
    ensures j.End().world.child.Reaped?
    ensures var s, v, own := j.End(), j.Verdict(), j.End().world.child.status;
            match j.Outcome().1
            case NoMessage => v.Accepted?
            case WallOverLimit(wall, limit) => v.TimeLimitExceeded? && wall == j.Wall() && limit == j.limits.limit
            case OutputOverLimit => v.WrongAnswer? && s.vars.exceeded
            case OutOfMemory => v.RunTimeError? && j.oomKilled
            case KilledBySignal(sig) => v.RunTimeError? && !j.oomKilled && own.Signaled? && own.sig == sig
            case ExitCodeNonzero(code) =>
              v.RunTimeError? && !j.oomKilled && own.Exited? && own.code == code && code != 0
            case OutputDiffers(detail) =>
              v.WrongAnswer? && !s.vars.exceeded && own == Exited(0) && !j.compareOk && detail == j.compareMessage
  {
    FinishedHasRecord(j);
  }

  /**
   While the output file only grows, the output-limit flag is exactly "the file was over
   the limit at the final check"; when no stray writer was left at that check, it is
   exactly "the finished file is over the limit".
   */
  lemma OutputFlagIsExact(j: Judged)
    requires j.Valid() && GrowOnly(j.run)
    ensures var s := j.End();
            var bytes := j.outputLimitMib * 1048576;
            && (s.vars.exceeded <==> s.hist.checked.Some? && bytes < s.hist.checked.value)
            && (s.hist.quiet ==> (s.vars.exceeded <==> s.world.file.Some? && bytes < s.world.file.value))
  {
    FinishedHasRecord(j);
    GrowOnlyHonest(j.Params(), j.run);
  }

  /** A solution that ran past the limit by more than the rounding error is TLE on every
      host.  On a prompt host with a hard kill beyond the limit, one that ended a polling
      period before the limit is not. */
  lemma VerdictTracksRunningTime(j: Judged, h: Host)
    requires j.Valid() && h.Valid()
    ensures j.limits.limit + 0.0000005 < j.Ran() ==> j.Verdict().TimeLimitExceeded?
    ensures Prompt(h, j.run) && j.limits.limit + h.delay < Milli(j.limits.hardKill)
            && j.Ran() + MeasuringError(h, j.End().hist.sentKill) + 0.0000005 <= j.limits.limit
            ==> !j.Verdict().TimeLimitExceeded?
  {
    FinishedHasRecord(j);
    RoundingError(j.End().vars.wall.value);
    if Prompt(h, j.run) {
      RunTimed(j.Params(), h, j.run);
    }
  }

  /** The hard kill is prompt: on a prompt host no child runs longer, however it behaves, than
      the hard kill, a polling period, seven calls and the reaping. */
  lemma HardKillIsPrompt(j: Judged, h: Host)
    requires j.Valid() && h.Valid() && Prompt(h, j.run) && j.launched <= j.started + Milli(j.limits.hardKill)
    ensures j.Ran() <= Milli(j.limits.hardKill) + 0.002 + 7.0 * h.delay + h.reap
  {
    FinishedHasRecord(j);
    RunTimed(j.Params(), h, j.run);
  }

  /** No member of the child's process group is left when the output is looked at last. */
  lemma GroupIsGone(j: Judged)
    requires j.Valid()
    ensures !j.End().world.kin && !j.End().world.child.Running?
  {
    FinishedHasRecord(j);
  }

  /** The RLIMIT_CPU backstop: a child on one CPU that used that much CPU time is TLE,
      so its death by SIGXCPU is never reported as a crash. */
  lemma CpuBackstopIsTle(j: Judged)
    requires j.Valid()
    requires j.End().world.child.Reaped?
    requires j.End().world.child.usage.cpu <= j.End().world.child.at - j.launched
    requires CpuBackstop(Milli(j.limits.hardKill)) as real <= j.End().world.child.usage.cpu
    ensures j.Verdict().TimeLimitExceeded?
  {
    FinishedHasRecord(j);
    RoundingError(j.limits.hardKill);
    VerdictTracksRunningTime(j, Host(0.0, 0.0));
  }

  /** From the call of the container to its return, the whole run fits the host's own timeout
      of hard kill + 60 s, whenever starting it up, calls, reaping and returning together
      stay under 58 s. */
  lemma HostTimeoutIsNotReached(j: Judged, h: Host, called: real, returned: real)
    requires j.Valid() && h.Valid() && Prompt(h, j.run)
    requires j.launched <= j.started + Milli(j.limits.hardKill)
    requires (j.started - called) + 12.0 * h.delay + h.reap + (returned - j.End().hist.entered) <= 58.0
    ensures returned - called < j.limits.hardKill + 60.0
  {
    RoundingError(j.limits.hardKill);
    RunEndsOnTime(j.Params(), h, j.run);
  }

  // ----- acceptance in terms of what the child did

  /** How a child ends whose output deserves to be compared. */
  ghost predicate EndedWell(j: Judged)
    requires j.Valid()
  {
    var s := j.End();
    && s.world.child.Reaped? && s.world.child.status == Exited(0) && !s.world.child.killed && !j.oomKilled
    && j.Ran() <= j.limits.limit + 0.0000005 && !Over(j.Params().outputLimit, s.world.file)
  }

  /** Acceptance is earned: on a growing file that nobody writes any more, the child ended by
      itself with 0, within its time, memory and output. */
  lemma AcceptedMeansEndedWell(j: Judged)
    requires j.Valid() && GrowOnly(j.run) && j.End().hist.quiet && j.Verdict().Accepted?
    ensures EndedWell(j) && j.compareOk
  {
    AnswerVerdictsExactly(j);
    OutputFlagIsExact(j);
    VerdictTracksRunningTime(j, Host(0.0, 0.0));
  }

  /** On a prompt host and a growing file the child ended a polling period before the limit
      and wrote no more than it may. */
  ghost predicate EndedInTime(j: Judged, h: Host)
    requires j.Valid()
  {
    && h.Valid() && Prompt(h, j.run) && j.limits.limit + h.delay < Milli(j.limits.hardKill)
    && j.Ran() + 0.002 + 6.0 * h.delay + 0.0000005 <= j.limits.limit
    && GrowOnly(j.run) && !Over(j.Params().outputLimit, j.End().world.file)
  }

  lemma TimelyChildIsLeftAlone(j: Judged, h: Host)
    requires j.Valid() && EndedInTime(j, h)
    ensures InTime(j)
  {
    FinishedHasRecord(j);
    OutputFlagIsExact(j);
    GrowOnlyHonest(j.Params(), j.run);
    RunTimed(j.Params(), h, j.run);
    VerdictTracksRunningTime(j, h);
  }

  /** A child that ends in time is judged by how it ended and what it wrote, and by nothing
      else. */
  lemma TimelyChildIsJudgedByItsEnd(j: Judged, h: Host)
    requires j.Valid() && EndedInTime(j, h)
    ensures j.End().world.child.Reaped?
    ensures var v, healthy := j.Verdict(), !j.oomKilled && j.End().world.child.status == Exited(0);
            && (v.Accepted? <==> healthy && j.compareOk)
            && (v.WrongAnswer? <==> healthy && !j.compareOk)
            && (v.RunTimeError? <==> !healthy)
  {
    TimelyChildIsLeftAlone(j, h);
    AnswerVerdictsExactly(j);
    BlameIsSound(j);
  }

  // ----- where the reports are not quite true

  ghost function Begin(c: Params): State
    ensures Init(c, Begin(c))
  {
    State(PollChild, World(c.launched, Running(false), false, false, Some(0)),
          Watcher(WaitStop, c.launched + WATCH, None),
          Vars(c.launched, c.launched, c.launched, false, None, None, None, false, false),
          History(false, 0, 0, c.launched, c.launched, c.launched, None, false))
  }

  /** The child hangs until its deadline and dies the moment it is killed. */
  lemma KilledAtDeadline(c: Params) returns (run: seq<State>)
    requires c.launched == c.started && 0.0 <= c.hardKill
    ensures Finished(c, run) && Last(run).vars.timedOut && Last(run).vars.wall == Some(c.hardKill)
  {
    run := [Begin(c)];
    run := Act(c, run);
    run := Wait(c, run, Last(run).world.(clock := c.Deadline()));
    run := Act(c, run);
    run := Act(c, run);
    run := Act(c, run);
    run := Wait(c, run, Last(run).world.(child := Zombie(Signaled(9), Usage(0.0, 0), c.Deadline(), true)));
    run := Act(c, run);
    run := Act(c, run);
    run := Act(c, run);
    run := Wait(c, run, Last(run).world.(clock := Last(run).vars.joinBy));
    run := Act(c, run);
    run := Act(c, run);
    run := Act(c, run);
  }

  ghost predicate ClaimsOverLimit(j: Judged)
    requires j.Valid()
  {
    j.Outcome().1.WallOverLimit?
  }

  /** As for interactive runs: "wall exceeded the limit" is reported truthfully on every
      run exactly when the hard kill, as rounded for the command line, lies beyond it. */
  lemma OverLimitClaimIsTrueIff(limits: TimeLimits)
    requires limits.Valid()
    ensures limits.limit < Milli(limits.hardKill)
            <==> forall j: Judged :: j.limits == limits && j.Valid() && ClaimsOverLimit(j) ==> limits.limit < j.Wall()
  {
    if limits.limit < Milli(limits.hardKill) {
      forall j: Judged | j.limits == limits && j.Valid() && ClaimsOverLimit(j) ensures limits.limit < j.Wall() {
        FinishedHasRecord(j);
        if j.End().vars.timedOut {
          RoundingIsMonotone(Milli(limits.hardKill), j.End().vars.wall.value);
          MicroFixesMilli(limits.hardKill);
        }
      }
    } else {
      var c := JudgeParams(limits, 8, 0.0, 0.0);
      RoundingIsMonotone(0.0, limits.hardKill);
      NearestFixesIntegers(0);
      var run := KilledAtDeadline(c);
      var j := Judged(limits, 8, 0.0, 0.0, run, false, true, Comparator.NoMessage);
      assert j.Valid();
      FinishedHasRecord(j);
      MicroFixesMilli(limits.hardKill);
      assert ClaimsOverLimit(j) && j.Wall() == Milli(limits.hardKill);
    }
  }

  lemma ActGrowOnly(c: Params, run: seq<State>) returns (run': seq<State>)
    requires IsRun(c, run) && GrowOnly(run) && Last(run).world.file.Some? && Enabled(Last(run))
    ensures IsRun(c, run') && GrowOnly(run') && Last(run') == Prog(c, Last(run))
    ensures Last(run').world.file == Last(run).world.file
  {
    var s := Prog(c, Last(run));
    ExtendRun(c, run, s);
    run' := run + [s];
    forall i | 0 <= i < |run'| - 1 ensures Grows(run'[i], run'[i + 1]) {
      if i < |run| - 1 { assert Grows(run[i], run[i + 1]); }
    }
  }

  lemma WaitGrowOnly(c: Params, run: seq<State>, w: World) returns (run': seq<State>)
    requires IsRun(c, run) && GrowOnly(run) && WorldMoves(Last(run).world, w)
    requires Last(run).world.file.Some? && w.file.Some? && Last(run).world.file.value <= w.file.value
    ensures run <= run' && IsRun(c, run') && GrowOnly(run') && Last(run') == Last(run).(world := w)
  {
    var s := Last(run).(world := w);
    ExtendRun(c, run, s);
    run' := run + [s];
    forall i | 0 <= i < |run'| - 1 ensures Grows(run'[i], run'[i + 1]) {
      if i < |run| - 1 { assert Grows(run[i], run[i + 1]); }
    }
  }

  /** Without a quiet final check the flag can miss: a process that outlives the child may
      push the file over the limit after the size was read. */
  lemma StrayWriterCanSlipThrough(c: Params)
    requires c.Valid()
    ensures exists run: seq<State> :: Finished(c, run) && GrowOnly(run)
              && Over(c.outputLimit, Last(run).world.file) && !Last(run).vars.exceeded
  {
    var run := [Begin(c)];
    var ended := Zombie(Exited(0), Usage(0.0, 0), c.launched, false);
    run := WaitGrowOnly(c, run, World(c.launched, ended, false, true, Some(0)));
    run := ActGrowOnly(c, run);
    run := ActGrowOnly(c, run);
    run := ActGrowOnly(c, run);
    run := WaitGrowOnly(c, run, Last(run).world.(clock := Last(run).vars.joinBy));
    run := ActGrowOnly(c, run);
    run := ActGrowOnly(c, run);
    run := ActGrowOnly(c, run);
    run := WaitGrowOnly(c, run, Last(run).world.(file := Some(c.outputLimit + 1)));
  }

  /** After the final check the supervisor's own state is fixed. */
  lemma {:induction false} DoneIsFinal(c: Params, run: seq<State>, from: nat, i: nat)
    requires c.Valid() && IsRun(c, run) && from <= i < |run| && run[from].pc == Done
    ensures run[i].pc == Done && run[i].vars == run[from].vars
    ensures run[i].hist.checked == run[from].hist.checked && run[i].hist.quiet == run[from].hist.quiet
    decreases i
  {
    if from < i {
      DoneIsFinal(c, run, from, i - 1);
      assert Next(c, run[i - 1], run[i - 1 + 1]);
    }
  }

  /** On a growing file the flag agrees with the file. */
  ghost predicate FlagAgrees(c: Params, s: State) { s.vars.exceeded <==> Over(c.outputLimit, s.world.file) }

  /** The flag agrees with the file whatever happens after the run so far. */
  ghost predicate FlagIsFinal(c: Params, run: seq<State>) {
    forall run' :: run <= run' && IsRun(c, run') && GrowOnly(run') ==> FlagAgrees(c, Last(run'))
  }

  /** The flag just written is final exactly when the file is already over the limit or no
      stray writer is left. */
  lemma FlagIsFinalIff(c: Params, run: seq<State>)
    requires c.Valid() && Finished(c, run) && GrowOnly(run) && Last(run).world.file.Some?
    requires Last(run).hist.checked == Last(run).world.file && Last(run).hist.quiet == !Last(run).world.stray
    ensures FlagIsFinal(c, run) <==> Over(c.outputLimit, Last(run).world.file) || !Last(run).world.stray
  {
    GrowOnlyHonest(c, run);
    if Over(c.outputLimit, Last(run).world.file) || !Last(run).world.stray {
      forall run' | run <= run' && IsRun(c, run') && GrowOnly(run') ensures FlagAgrees(c, Last(run')) {
        assert run'[|run| - 1] == Last(run);
        DoneIsFinal(c, run', |run| - 1, |run'| - 1);
        GrowOnlyHonest(c, run');
        RunInv(c, run');
      }
    } else {
      var run' := WaitGrowOnly(c, run, Last(run).world.(file := Some(c.outputLimit + 1)));
      assert !FlagAgrees(c, Last(run'));
    }
  }
}
