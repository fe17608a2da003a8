/**
 From an interactive run to its verdict: the record the supervisor writes
 (image/interactive_runner.py:145-157), the parameters the judge passes
 (src/icpc_verify/judge.py:282-285) and `_classify_interactive`, with what the
 composition of the three promises about who is blamed.
 */
module InteractiveBlame {
  import opened Options
  import opened Processes
  import opened Rounding
  import opened TimeLimits
  import opened Verdicts
  import opened InteractiveMachine
  import opened InteractiveTiming

  datatype SolutionRecord = SolutionRecord(
    wall: real, cpu: real, maxRssKib: nat, exitCode: int, sig: nat, timedOut: bool)

  datatype Raw = Raw(solution: SolutionRecord, validatorExit: int, validatorSignal: nat, pairTimedOut: bool)

  datatype Message =
    | NoMessage
    | ValidatorTooSlow(wall: real, limit: real)
    | WallOverLimit(wall: real, limit: real)
    | ValidatorExit(code: int)
    | MemoryOverLimit
    | KilledBySignal(sig: nat)
    | ExitCodeNonzero(code: int)

  function Classify(raw: Raw, limits: TimeLimits, memoryMib: nat): (Verdict, Message) {
    var sol := raw.solution;
    var overLimit := sol.timedOut || limits.limit < sol.wall;
    if raw.pairTimedOut && !overLimit then (JudgeError, ValidatorTooSlow(sol.wall, limits.limit))
    else if raw.pairTimedOut || overLimit then (TimeLimitExceeded, WallOverLimit(sol.wall, limits.limit))
    else if raw.validatorExit != 42 && raw.validatorExit != 43 then (JudgeError, ValidatorExit(raw.validatorExit))
    else if memoryMib * 1024 < sol.maxRssKib then (RunTimeError, MemoryOverLimit)
    else if sol.sig != 0 && sol.sig != SIGPIPE then (RunTimeError, KilledBySignal(sol.sig))
    else if sol.sig == 0 && sol.exitCode != 0 then (RunTimeError, ExitCodeNonzero(sol.exitCode))
    else if raw.validatorExit == 42 then (Accepted, NoMessage)
    else (WrongAnswer, NoMessage)
  }

  /** The parameters the judge gives the supervisor: both times rounded to milliseconds. */
  function JudgeParams(limits: TimeLimits, started: real, launched: real): Params {
    Params(started, launched, Milli(limits.hardKill), Milli(limits.hardKill + 5.0))
  }

  lemma JudgeParamsValid(limits: TimeLimits, started: real, launched: real)
    requires started <= launched
    ensures JudgeParams(limits, started, launched).Valid()
  {
    RoundingIsMonotone(limits.hardKill, limits.hardKill + 5.0);
  }

  ghost predicate HasRecord(s: State) {
    && s.vars.wall.Some? && s.vars.solStatus.Some? && s.vars.solUsage.Some? && s.vars.valStatus.Some?
    && s.world.sol.Reaped?
  }

  function Record(s: State): Raw
    requires HasRecord(s)
  {
    Raw(
      SolutionRecord(Micro(s.vars.wall.value), Micro(s.vars.solUsage.value.cpu), s.vars.solUsage.value.maxRssKib,
                     ExitCode(s.vars.solStatus.value), TermSignal(s.vars.solStatus.value), s.vars.solTimedOut),
      ExitCode(s.vars.valStatus.value), TermSignal(s.vars.valStatus.value), s.vars.pairTimedOut)
  }

  /** A complete run of the supervisor under the judge's parameters. */
  datatype Judged = Judged(limits: TimeLimits, started: real, launched: real, memoryMib: nat, run: seq<State>) {
    function Params(): Params { JudgeParams(limits, started, launched) }

    ghost predicate Valid() {
      limits.Valid() && started <= launched && Finished(Params(), run)
    }
    function End(): State
      requires 0 < |run|
    {
      Last(run)
    }
    ghost function Outcome(): (Verdict, Message)
      requires Valid()
    {
      FinishedHasRecord(this);
      Classify(Record(End()), limits, memoryMib)
    }
    ghost function Verdict(): Verdict
      requires Valid()
    {
      Outcome().0
    }
    /** The wall time as reported. */
    ghost function Wall(): real
      requires Valid()
    {
      FinishedHasRecord(this);
      Micro(End().vars.wall.value)
    }
    /** How long the solution really ran, counted from the start of the clock. */
    ghost function Ran(): real
      requires Valid()
    {
      FinishedHasRecord(this);
      End().world.sol.at - started
    }
  }

  lemma FinishedHasRecord(j: Judged)
    requires j.limits.Valid() && j.started <= j.launched && Finished(j.Params(), j.run)
    ensures HasRecord(j.End()) && Inv(j.Params(), j.End()) && j.End().world.val.Reaped?
  {
    JudgeParamsValid(j.limits, j.started, j.launched);
    RunInv(j.Params(), j.run);
  }

  /** Each child is waited for exactly once and the loop takes a bounded number of rounds. */
  lemma ReapedOnceInBoundedRounds(j: Judged)
    requires j.Valid()
    ensures j.End().hist.solReaps == j.End().hist.valReaps == 1
    ensures j.End().hist.iterations <= RoundBound(j.Params())
  {
    FinishedHasRecord(j);
  }

  /**
   Blame is sound on every interleaving.  A solution the supervisor killed is TLE and
   nothing else; it had run to the hard-kill deadline.  A validator it killed had run to the
   pair deadline, and never yields a verdict about the solution's answer.  `judge_error` means the solution was
   left alone and in time, and the validator was cut off or ended with a foreign code.
   */
  lemma BlameIsSound(j: Judged)
    requires j.Valid()
    ensures var s, v := j.End(), j.Verdict();
            && (v.TimeLimitExceeded? <==> s.vars.solTimedOut || j.limits.limit < j.Wall())
            && (s.world.sol.killed ==> v.TimeLimitExceeded? && Milli(j.limits.hardKill) <= j.Ran())
            && (s.world.val.killed ==>
                  && (v.TimeLimitExceeded? || v.JudgeError?)
                  && s.world.val.Reaped? && j.Params().PairDeadline() <= s.world.val.at)
            && (v.JudgeError? ==>
                  && s.world.val.Reaped? && !s.vars.solTimedOut && !s.world.sol.killed && j.Wall() <= j.limits.limit
                  && (|| s.vars.pairTimedOut
                      || (!s.world.val.killed
                          && s.world.val.status != Exited(42) && s.world.val.status != Exited(43))))
            && (v.Accepted? || v.WrongAnswer? || v.RunTimeError? ==>
                  !s.world.sol.killed && !s.world.val.killed && !s.vars.pairTimedOut && j.Wall() <= j.limits.limit)
  {
    FinishedHasRecord(j);
  }

  /** Both children ended by themselves, in time, and the validator gave its answer. */
  ghost predicate Clean(j: Judged)
    requires j.Valid()
  {
    var s := j.End();
    && s.world.val.Reaped?
    && !s.vars.solTimedOut && !s.vars.pairTimedOut && j.Wall() <= j.limits.limit
    && !s.world.sol.killed && !s.world.val.killed
    && (s.world.val.status == Exited(42) || s.world.val.status == Exited(43))
  }

  /** The solution respected the rules: memory, and a normal exit or a forgiven SIGPIPE. */
  ghost predicate Healthy(j: Judged)
    requires j.Valid()
  {
    var s := j.End();
    && s.world.sol.Reaped?
    && s.world.sol.usage.maxRssKib <= j.memoryMib * 1024
    && (s.world.sol.status == Exited(0) || s.world.sol.status == Signaled(13))
  }

  /** The three verdicts about the answer, each with its exact cause. */
  lemma AnswerVerdictsExactly(j: Judged)
    requires j.Valid()
    ensures j.Verdict().Accepted? <==> Clean(j) && Healthy(j) && j.End().world.val.status == Exited(42)
    ensures j.Verdict().WrongAnswer? <==> Clean(j) && Healthy(j) && j.End().world.val.status == Exited(43)
    ensures j.Verdict().RunTimeError? <==> Clean(j) && !Healthy(j)
  {
    FinishedHasRecord(j);
  }

  /** The message says why: it is chosen by the verdict's own cause and carries its figures. */
  lemma MessageSaysWhy(j: Judged)
    requires j.Valid()
    ensures j.End().world.sol.Reaped? && j.End().world.val.Reaped?
    ensures var s, v, own, val := j.End(), j.Verdict(), j.End().world.sol, j.End().world.val.status;
            match j.Outcome().1
            case NoMessage => v.Accepted? || v.WrongAnswer?
            case ValidatorTooSlow(wall, limit) =>
              v.JudgeError? && s.vars.pairTimedOut && wall == j.Wall() && limit == j.limits.limit && wall <= limit
            case WallOverLimit(wall, limit) => v.TimeLimitExceeded? && wall == j.Wall() && limit == j.limits.limit
            case ValidatorExit(code) =>
              v.JudgeError? && !s.vars.pairTimedOut && code == if val.Exited? then val.code else -1
            case MemoryOverLimit => v.RunTimeError? && j.memoryMib * 1024 < own.usage.maxRssKib
            case KilledBySignal(sig) =>
              && v.RunTimeError? && own.usage.maxRssKib <= j.memoryMib * 1024
              && own.status.Signaled? && own.status.sig == sig && sig != 13
            case ExitCodeNonzero(code) =>
              && v.RunTimeError? && own.usage.maxRssKib <= j.memoryMib * 1024
              && own.status.Exited? && own.status.code == code && code != 0
  {
    FinishedHasRecord(j);
  }

  /** The record is true of both processes; -1 stands for a death by signal, and 0 for none. */
  lemma RecordIsTrue(j: Judged)
    requires j.Valid()
    ensures HasRecord(j.End()) && j.End().world.val.Reaped?
    ensures var r, sol, val := Record(j.End()), j.End().world.sol, j.End().world.val;
            && j.Ran() <= r.solution.wall + 0.0000005 && r.solution.wall == j.Wall()
            && -0.0000005 <= r.solution.cpu - sol.usage.cpu <= 0.0000005
            && r.solution.maxRssKib == sol.usage.maxRssKib
            && r.solution.exitCode == (if sol.status.Exited? then sol.status.code else -1)
            && r.solution.sig == (if sol.status.Signaled? then sol.status.sig else 0)
            && r.validatorExit == (if val.status.Exited? then val.status.code else -1)
            && r.validatorSignal == (if val.status.Signaled? then val.status.sig else 0)
            && (sol.killed ==> r.solution.timedOut) && (val.killed ==> r.pairTimedOut)
  {
    FinishedHasRecord(j);
    RoundingError(j.End().vars.wall.value);
    RoundingError(j.End().vars.solUsage.value.cpu);
  }

  // ----- the time verdict against the time that really passed

  /** A solution that ran past the limit by more than the rounding error is TLE on every host.
      On a prompt host with a hard kill beyond the limit, one that ended a polling period
      before the limit is not. */
  lemma VerdictTracksRunningTime(j: Judged, h: Host)
    requires j.Valid() && h.Valid()
    ensures j.limits.limit + 0.0000005 < j.Ran() ==> j.Verdict().TimeLimitExceeded?
    ensures Prompt(h, j.run) && j.limits.limit < Milli(j.limits.hardKill)
            && j.Ran() + MeasuringError(h, false) + 0.0000005 <= j.limits.limit
            ==> !j.Verdict().TimeLimitExceeded?
  {
    FinishedHasRecord(j);
    RoundingError(j.End().vars.wall.value);
    if Prompt(h, j.run) {
      RunTimed(j.Params(), h, j.run);
    }
  }

  /** The hard kill is prompt: on a prompt host no solution runs longer, however it behaves,
      than the hard kill, a polling period, eleven calls and the reaping. */
  lemma HardKillIsPrompt(j: Judged, h: Host)
    requires j.Valid() && h.Valid() && Prompt(h, j.run) && j.launched <= j.started + Milli(j.limits.hardKill)
    ensures j.Ran() <= Milli(j.limits.hardKill) + 0.005 + 11.0 * h.delay + h.reap
  {
    FinishedHasRecord(j);
    RunTimed(j.Params(), h, j.run);
  }

  /** No member of either process group is left at the end. */
  lemma GroupsAreGone(j: Judged)
    requires j.Valid()
    ensures !j.End().world.solKin && !j.End().world.valKin
    ensures !j.End().world.sol.Running? && !j.End().world.val.Running?
  {
    FinishedHasRecord(j);
  }

  /** The RLIMIT_CPU backstop: a solution that used that much CPU time ran at least as
      long (it has one CPU), so its death by the backstop is TLE, never a crash. */
  lemma CpuBackstopIsTle(j: Judged)
    requires j.Valid()
    requires j.End().world.sol.Reaped? && j.End().world.sol.usage.cpu <= j.End().world.sol.at - j.launched
    requires CpuBackstop(Milli(j.limits.hardKill)) as real <= j.End().world.sol.usage.cpu
    ensures j.Verdict().TimeLimitExceeded?
  {
    FinishedHasRecord(j);
    RoundingError(j.limits.hardKill);
    VerdictTracksRunningTime(j, Host(0.0, 0.0));
  }

  /** A `judge_error` for a slow validator: on a prompt host it was still running less
      than one polling period before the pair deadline, long after the solution ended. */
  lemma SlowValidatorWasRunning(j: Judged, h: Host)
    requires j.Valid() && h.Valid() && Prompt(h, j.run)
    requires j.Verdict().JudgeError? && j.End().vars.pairTimedOut
    ensures j.End().world.val.Reaped?
    ensures j.Params().PairDeadline() - POLL - 5.0 * h.delay <= j.End().world.val.at
    ensures j.Ran() <= j.limits.limit + 0.0000005
  {
    FinishedHasRecord(j);
    RunTimed(j.Params(), h, j.run);
    RoundingError(j.End().vars.wall.value);
    RoundingError(j.limits.hardKill + 5.0);
    BlameIsSound(j);
  }

  /** The grace is real: a validator blamed for slowness outlived the solution by the overshoot
      and five seconds, up to a polling period and the roundings. */
  lemma GraceWasGiven(j: Judged, h: Host)
    requires j.Valid() && h.Valid() && Prompt(h, j.run)
    requires j.Verdict().JudgeError? && j.End().vars.pairTimedOut
    ensures j.End().world.val.Reaped? && j.End().world.sol.Reaped?
    ensures j.limits.overshoot + 5.0 - 0.005 - 5.0 * h.delay - 0.0005005
            <= j.End().world.val.at - j.End().world.sol.at
  {
    FinishedHasRecord(j);
    SlowValidatorWasRunning(j, h);
    RoundingError(j.limits.hardKill + 5.0);
  }

  /** From the call of the container to its return, the whole run fits the host's own timeout
      of hard kill + 60 s, whenever starting it up, calls, reaping and returning together
      stay under 54 s. */
  lemma HostTimeoutIsNotReached(j: Judged, h: Host, called: real, returned: real)
    requires j.Valid() && h.Valid() && Prompt(h, j.run)
    requires j.launched <= j.started + Milli(j.limits.hardKill + 5.0)
    requires (j.started - called) + 22.0 * h.delay + 2.0 * h.reap + (returned - j.End().hist.entered) <= 54.0
    ensures returned - called < j.limits.hardKill + 60.0
  {
    JudgeParamsValid(j.limits, j.started, j.launched);
    RoundingError(j.limits.hardKill + 5.0);
    RunEndsOnTime(j.Params(), h, j.run);
  }

  // ----- acceptance in terms of what the two processes did

  /** How a solution ends that deserves its validator's answer, on any host. */
  ghost predicate EndedWell(j: Judged)
    requires j.Valid()
  {
    Healthy(j) && !j.End().world.sol.killed && j.Ran() <= j.limits.limit + 0.0000005
  }

  /** Acceptance is earned: the solution ended by itself, in time and in good health, and the
      validator by itself with 42; on a prompt host, not long after the pair deadline. */
  lemma AcceptedMeansWon(j: Judged, h: Host)
    requires j.Valid() && h.Valid() && j.Verdict().Accepted?
    ensures var val := j.End().world.val;
            && EndedWell(j) && val.Reaped? && val.status == Exited(42) && !val.killed
            && (Prompt(h, j.run) ==> val.at <= j.Params().PairDeadline() + 3.0 * h.delay)
  {
    AnswerVerdictsExactly(j);
    VerdictTracksRunningTime(j, h);
    if Prompt(h, j.run) {
      JudgeParamsValid(j.limits, j.started, j.launched);
      RunTimed(j.Params(), h, j.run);
    }
  }

  /** On a prompt host both processes ended a polling period before their limits. */
  ghost predicate EndedInTime(j: Judged, h: Host)
    requires j.Valid()
  {
    && h.Valid() && Prompt(h, j.run) && j.limits.limit < Milli(j.limits.hardKill)
    && j.Ran() + 0.005 + 8.0 * h.delay + 0.0000005 <= j.limits.limit
    && j.End().world.val.Reaped? && j.End().world.val.at < j.Params().PairDeadline() - 0.005 - 5.0 * h.delay
  }

  lemma TimelyPairIsLeftAlone(j: Judged, h: Host)
    requires j.Valid() && EndedInTime(j, h)
    ensures var s := j.End();
            && !s.vars.solTimedOut && !s.vars.pairTimedOut && !s.world.sol.killed && !s.world.val.killed
            && j.Wall() <= j.limits.limit
  {
    FinishedHasRecord(j);
    VerdictTracksRunningTime(j, h);
    RunTimed(j.Params(), h, j.run);
    RoundingError(j.End().vars.wall.value);
    RoundingError(j.limits.hardKill + 5.0);
  }

  /** Processes that end in time are judged by how they ended, and by nothing else. */
  lemma TimelyPairIsJudgedByItsEnd(j: Judged, h: Host)
    requires j.Valid() && EndedInTime(j, h)
    ensures var v, answer := j.Verdict(), j.End().world.val.status;
            && (v.Accepted? <==> Healthy(j) && answer == Exited(42))
            && (v.WrongAnswer? <==> Healthy(j) && answer == Exited(43))
            && (v.RunTimeError? <==> !Healthy(j) && (answer == Exited(42) || answer == Exited(43)))
            && (v.JudgeError? <==> answer != Exited(42) && answer != Exited(43))
  {
    TimelyPairIsLeftAlone(j, h);
    AnswerVerdictsExactly(j);
    BlameIsSound(j);
  }

  // ----- where the reports are not quite true

  /** A first round that finds the solution running at its deadline, and kills it. */
  lemma SolutionHangs(c: Params) returns (run: seq<State>)
    requires c.Valid() && c.launched == c.started && 0.0 <= c.hardKill
    ensures IsRun(c, run)
    ensures var s := Last(run);
            && s.pc == AwaitSolution && s.world.clock == c.Deadline() && s.world.sol == Running(true)
            && s.world.val.Reaped? && s.vars.valStatus.Some? && s.vars.solTimedOut
  {
    run := [Begin(c)];
    run := Act(c, run);
    var answered := Zombie(Exited(42), Usage(0.0, 0), c.Deadline(), false);
    run := Wait(c, run, World(c.Deadline(), Running(false), answered, false, false));
    run := Act(c, run);
    run := Act(c, run);
    run := Act(c, run);
    run := Act(c, run);
  }

  /** The killed solution dies at once: its wall is the deadline itself. */
  lemma KilledAtDeadline(c: Params) returns (run: seq<State>)
    requires c.Valid() && c.launched == c.started && 0.0 <= c.hardKill
    ensures Finished(c, run) && Last(run).vars.solTimedOut && Last(run).vars.wall == Some(c.hardKill)
  {
    run := SolutionHangs(c);
    run := Wait(c, run, Last(run).world.(sol := Zombie(Signaled(9), Usage(0.0, 0), c.Deadline(), true)));
    run := Act(c, run);
    run := Act(c, run);
    run := Act(c, run);
    run := Act(c, run);
  }

  ghost predicate ClaimsOverLimit(j: Judged)
    requires j.Valid()
  {
    j.Outcome().1.WallOverLimit?
  }

  /**
   "wall exceeded the limit" is reported truthfully on every run exactly when the hard
   kill, as rounded for the command line, lies beyond the limit.  An overshoot under half
   a millisecond can break it.
   */
  lemma OverLimitClaimIsTrueIff(limits: TimeLimits)
    requires limits.Valid()
    ensures limits.limit < Milli(limits.hardKill)
            <==> forall j: Judged :: j.limits == limits && j.Valid() && ClaimsOverLimit(j) ==> limits.limit < j.Wall()
  {
    if limits.limit < Milli(limits.hardKill) {
      forall j: Judged | j.limits == limits && j.Valid() && ClaimsOverLimit(j) ensures limits.limit < j.Wall() {
        FinishedHasRecord(j);
        if j.End().vars.solTimedOut {
          RoundingIsMonotone(Milli(limits.hardKill), j.End().vars.wall.value);
          MicroFixesMilli(limits.hardKill);
        }
      }
    } else {
      var c := JudgeParams(limits, 0.0, 0.0);
      JudgeParamsValid(limits, 0.0, 0.0);
      RoundingIsMonotone(0.0, limits.hardKill);
      NearestFixesIntegers(0);
      var run := KilledAtDeadline(c);
      var j := Judged(limits, 0.0, 0.0, 0, run);
      assert j.Valid();
      FinishedHasRecord(j);
      MicroFixesMilli(limits.hardKill);
      assert ClaimsOverLimit(j) && j.Wall() == Milli(limits.hardKill);
    }
  }

  /** The failing side is reached by a real spec: with "0.0004s" the hard kill is rounded
      down to the limit, and a solution killed there is said to have exceeded it. */
  lemma ShortOvershootMisreports(space: char -> bool) returns (limits: TimeLimits, j: Judged)
    requires Ordinary(space)
    ensures MakeTimeLimits(space, 1.0, "0.0004s") == Ok(limits)
    ensures j.limits == limits && j.Valid() && ClaimsOverLimit(j) && j.Wall() <= limits.limit
  {
    ShortSpec(space);
    limits := TimeLimits(1.0, 0.0004, 1.0004);
    hide MakeTimeLimits;
    OverLimitClaimIsTrueIff(limits);
    j :| j.limits == limits && j.Valid() && ClaimsOverLimit(j) && !(limits.limit < j.Wall());
  }

  lemma OneMillisecondIsEnough(limits: TimeLimits)
    requires limits.Valid() && 0.001 <= limits.overshoot
    ensures limits.limit < Milli(limits.hardKill)
  {
    RoundingError(limits.hardKill);
  }
}
