/**
 The pipes and the supervisor together: who is blamed when the end of the solution does not
 reach the validator.  The source relies on it: once the solution has ended, the validator
 sees end-of-file and ends by itself (image/interactive_runner.py:135-136).  But only the
 solution's first process is waited for, and its group is killed only after the loop, so
 that a descendant can keep the pipe open.
 */
module WithheldEof {
  import opened Options
  import opened Processes
  import opened Rounding
  import opened TimeLimits
  import Pipes
  import opened InteractiveMachine
  import opened InteractiveTiming
  import opened InteractiveBlame
  import opened InteractivePunctuality

  /** The end by which the validator reads from the solution. */
  const INPUT := Pipes.Write(Pipes.ToValidator)

  const VALIDATOR := Pipes.Leader(Pipes.Validator)
  const SOLUTION := Pipes.Leader(Pipes.Solution)

  /** A judged run with the history of its pipes: `times[i]` is when `pipes[i]` began. */
  datatype Wired = Wired(judged: Judged, pipes: seq<Pipes.State>, times: seq<real>) {
    ghost predicate Valid() {
      && judged.Valid() && judged.End().world.sol.Reaped? && judged.End().world.val.Reaped?
      && Pipes.IsRun(Pipes.ALL, pipes) && |times| == |pipes|
      && (forall i, k :: 0 <= i <= k < |times| ==> times[i] <= times[k])
      && (forall i :: 0 <= i < |pipes| && pipes[i].pc == Pipes.Supervising ==>
            && (if SOLUTION in pipes[i].procs then times[i] <= judged.End().world.sol.at
                else judged.End().world.sol.at <= times[i])
            && (if VALIDATOR in pipes[i].procs then times[i] <= judged.End().world.val.at
                else judged.End().world.val.at <= times[i]))
      && Pipes.Last(pipes).pc == Pipes.Supervising
      && SOLUTION !in Pipes.Last(pipes).procs && VALIDATOR !in Pipes.Last(pipes).procs
    }

    /** From `i` on the pipe is at its end for the validator. */
    ghost predicate EofAt(i: nat) {
      i < |pipes| && i < |times| && pipes[i].pc == Pipes.Supervising && Pipes.HeldByNone(pipes[i], INPUT)
    }

    /** The validator reads to the end of its input: it ends only once it sees end-of-file, and
        then within `reply` seconds. */
    ghost predicate ReadsToEof(reply: real)
      requires Valid()
    {
      var val := judged.End().world.val;
      && (forall i: nat :: EofAt(i) ==> val.at <= times[i] + reply)
      && (!val.killed ==> exists i: nat :: EofAt(i) && times[i] <= val.at)
    }

    ghost predicate BlamedAsSlow()
      requires Valid()
    {
      judged.Verdict().JudgeError? && judged.End().vars.pairTimedOut
    }
  }

  lemma PrefixRun(closes: set<Pipes.End>, run: seq<Pipes.State>, i: nat)
    requires Pipes.IsRun(closes, run) && i < |run|
    ensures Pipes.IsRun(closes, run[..i + 1]) && Pipes.Last(run[..i + 1]) == run[i]
  {
    var shorter := run[..i + 1];
    forall k | 0 <= k < |shorter| - 1 ensures Pipes.Next(closes, shorter[k], shorter[k + 1]) {
      assert Pipes.Next(closes, run[k], run[k + 1]);
    }
  }

  /** A validator that reads to the end and is blamed for slowness was let down: at every
      moment after the solution ended, up to a polling period and `reply` before the pair
      deadline, a descendant of the solution kept its input open. */
  lemma BlamedReaderWasKeptWaiting(w: Wired, h: Host, reply: real, i: nat)
    requires w.Valid() && h.Valid() && Prompt(h, w.judged.run) && w.ReadsToEof(reply) && w.BlamedAsSlow()
    requires i < |w.pipes| && w.pipes[i].pc == Pipes.Supervising && SOLUTION !in w.pipes[i].procs
    requires w.times[i] + reply < w.judged.Params().PairDeadline() - POLL - 5.0 * h.delay
    ensures Pipes.HeldByDescendant(w.pipes[i], INPUT)
  {
    SlowValidatorWasRunning(w.judged, h);
    assert !w.EofAt(i);
    PrefixRun(Pipes.ALL, w.pipes, i);
    Pipes.LeaderGoneHangsUpIff(w.pipes[..i + 1], INPUT);
  }

  /** Conversely, a reader whose input reaches its end in time is never blamed. */
  lemma EofSavesTheReader(w: Wired, h: Host, reply: real, i: nat)
    requires w.Valid() && h.Valid() && Prompt(h, w.judged.run) && w.ReadsToEof(reply)
    requires i < |w.pipes| && w.pipes[i].pc == Pipes.Supervising && SOLUTION !in w.pipes[i].procs
    requires w.times[i] + reply < w.judged.Params().PairDeadline() - POLL - 5.0 * h.delay
    requires !Pipes.HeldByDescendant(w.pipes[i], INPUT)
    ensures !w.BlamedAsSlow()
  {
    if w.BlamedAsSlow() {
      BlamedReaderWasKeptWaiting(w, h, reply, i);
    }
  }

  // ----- it happens

  /** The solution ends at once; the validator runs until it is killed at the pair deadline. */
  lemma ValidatorHangs(c: Params) returns (run: seq<State>)
    requires c.launched == c.started && 0.0 < c.PairDeadline() - c.started
    ensures Finished(c, run) && Last(run).world.sol == EndedAtOnce(c)
    ensures Last(run).vars.wall == Some(0.0) && Last(run).vars.pairTimedOut && !Last(run).vars.solTimedOut
    ensures var val := Last(run).world.val;
            val.Reaped? && val.killed && val.status == Signaled(9) && c.PairDeadline() <= val.at
  {
    var wakes := c.PairDeadline() + POLL;
    var h := Host(wakes - c.started, 0.0);
    run := FirstPoll(c, h);
    run := Step(c, h, run);
    run := Step(c, h, run);
    run := Pass(c, h, run, Last(run).world.(clock := wakes));
    run := KilledForThePair(c, h, run);
  }

  /** The round of the pair deadline, with only the validator left. */
  lemma KilledForThePair(c: Params, h: Host, before: seq<State>) returns (run: seq<State>)
    requires PromptRun(c, h, before)
    requires var s := Last(before);
             && s.pc == Sleeping && s.vars.wake <= s.world.clock && c.PairDeadline() <= s.world.clock
             && s.world.sol == EndedAtOnce(c) && s.world.val == Running(false)
             && s.vars.solStatus.Some? && s.vars.valStatus.None? && !s.vars.solTimedOut
    ensures Finished(c, run) && Last(run).world.sol == EndedAtOnce(c)
    ensures Last(run).vars.wall == Last(before).vars.wall && Last(run).vars.pairTimedOut && !Last(run).vars.solTimedOut
    ensures Last(run).world.val == Reaped(Signaled(9), NOTHING, Last(before).world.clock, true)
  {
    run := Step(c, h, before);
    run := Step(c, h, run);
    run := Step(c, h, run);
    run := Step(c, h, run);
    run := Step(c, h, run);
    run := Step(c, h, run);
    run := Step(c, h, run);
    run := Step(c, h, run);
    run := Pass(c, h, run, Last(run).world.(val := Zombie(Signaled(9), NOTHING, Last(run).world.clock, true)));
    run := Step(c, h, run);
    run := Step(c, h, run);
  }

  /** The solution's first process forks and exits; its child keeps the pipe. */
  lemma ChildKeepsThePipe() returns (run: seq<Pipes.State>)
    ensures Pipes.IsRun(Pipes.ALL, run) && 3 <= |run|
    ensures forall i :: 0 <= i < |run| && run[i].pc == Pipes.Supervising ==>
              && 3 <= |run| && |run| - 4 <= i
              && (SOLUTION in run[i].procs <==> i < |run| - 2)
              && (VALIDATOR in run[i].procs <==> i < |run| - 1)
              && !Pipes.HeldByNone(run[i], INPUT)
    ensures Pipes.Last(run).pc == Pipes.Supervising && Pipes.HeldByDescendant(Pipes.Last(run), INPUT)
  {
    run := Pipes.QuietSetUp(Pipes.ALL);
    assert INPUT in Pipes.Last(run).procs[2].held;
    run := Pipes.Fork(Pipes.ALL, run, 2, 3);
    assert INPUT in Pipes.Last(run).procs[3].held;
    run := Pipes.Exit(Pipes.ALL, run, 2);
    assert INPUT in Pipes.Last(run).procs[3].held;
    run := Pipes.Exit(Pipes.ALL, run, 1);
    assert INPUT in Pipes.Last(run).procs[3].held;
    assert 3 in Pipes.Last(run).procs && 3 != Pipes.Leader(Pipes.Owner(INPUT));
  }

  /** For every limit there is a run in which a solution that ended at once, but left a child
      with the pipe, gets a validator blamed that reads to the end of its input and would
      have answered at once. */
  lemma SolutionCanWithholdEof(limits: TimeLimits)
    requires limits.Valid()
    ensures exists w: Wired ::
              && w.judged.limits == limits && w.Valid() && w.ReadsToEof(0.0) && w.BlamedAsSlow()
              && w.judged.End().world.sol == Reaped(Exited(0), NOTHING, w.judged.launched, false)
  {
    var c := JudgeParams(limits, 0.0, 0.0);
    JudgeParamsValid(limits, 0.0, 0.0);
    RoundingError(limits.hardKill + 5.0);
    NearestFixesIntegers(0);
    var run := ValidatorHangs(c);
    var j := Judged(limits, 0.0, 0.0, 0, run);
    assert j.Valid();
    FinishedHasRecord(j);
    var pipes := ChildKeepsThePipe();
    var times := seq(|pipes|, i => if i == |pipes| - 1 then j.End().world.val.at else 0.0);
    var w := Wired(j, pipes, times);
    assert w.Valid() && w.ReadsToEof(0.0) && w.BlamedAsSlow();
  }
}
