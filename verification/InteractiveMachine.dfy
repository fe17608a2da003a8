/**
 The interactive supervisor (image/interactive_runner.py) as a step relation.

 A state pairs the world (clock, solution, validator) with the supervisor's own
 variables and program counter.  The world moves by `Elapse`: any time may pass
 and either child may end.  The supervisor moves by `Prog`, one system call at a
 time; a blocking call is not `Enabled` until it can return.  Every interleaving
 is a run of `Next`.
 */
module InteractiveMachine {
  import opened Options
  import opened Processes

  /** `started` is sampled before the solution is launched; deadlines count from it. */
  datatype Params = Params(started: real, launched: real, hardKill: real, pairTimeout: real) {
    ghost predicate Valid() {
      started <= launched && hardKill <= pairTimeout
    }
    function Deadline(): real { started + hardKill }
    function PairDeadline(): real { started + pairTimeout }
  }

  /** The sleep between two rounds of polling, in seconds. */
  const POLL := 0.005

  datatype Pc =
    | LoopTest | SampleNow | PollSolution | StampPolled | PollValidator
    | TestHardKill | AwaitSolution | StampKilled
    | TestPair | PairAwaitSolution | PairStamp | PairValidator | AwaitValidator
    | Sleeping | Sweep | LateAwait | Done

  /** `solKin` and `valKin`: another process lives in the group of that child. */
  datatype World = World(clock: real, sol: Process, val: Process, solKin: bool, valKin: bool)

  datatype Vars = Vars(
    now: real, wake: real, solStatus: Option<Status>, solUsage: Option<Usage>, valStatus: Option<Status>,
    wall: Option<real>, solTimedOut: bool, pairTimedOut: bool)

  /** Loop rounds, successful waits, the last polls that found each child running, and
      the clock when the current system call was issued. */
  datatype History = History(
    iterations: nat, solReaps: nat, valReaps: nat, solPoll: real, valPoll: Option<real>, entered: real)

  datatype State = State(pc: Pc, world: World, vars: Vars, hist: History)

  ghost predicate Init(c: Params, s: State) {
    && s.pc == LoopTest
    && s.world == World(c.launched, Running(false), s.world.val, false, s.world.valKin)
    && !s.world.val.Reaped? && !s.world.val.killed && (s.world.val.Zombie? ==> s.world.val.at <= c.launched)
    && s.vars == Vars(s.vars.now, s.vars.wake, None, None, None, None, false, false)
    && s.hist == History(0, 0, 0, c.launched, None, c.launched)
  }

  /** Time passes; a running child may end meanwhile; who lives in a group may fork there. */
  ghost predicate WorldMoves(w: World, w': World) {
    && w.clock <= w'.clock
    && Evolves(w.sol, w'.sol, w.clock, w'.clock)
    && Evolves(w.val, w'.val, w.clock, w'.clock)
    && (w'.solKin ==> w.sol.Running? || w.solKin)
    && (w'.valKin ==> w.val.Running? || w.valKin)
  }

  ghost predicate Elapse(s: State, s': State) {
    s' == s.(world := s'.world) && WorldMoves(s.world, s'.world)
  }

  predicate Enabled(s: State) {
    match s.pc
    case AwaitSolution => s.world.sol.Zombie?
    case PairAwaitSolution => s.world.sol.Zombie?
    case AwaitValidator => s.world.val.Zombie?
    case LateAwait => s.world.val.Zombie?
    case Sleeping => s.vars.wake <= s.world.clock
    case Done => false
    case _ => true
  }

  function Goto(s: State, pc: Pc): State { s.(pc := pc, hist := s.hist.(entered := s.world.clock)) }

  function ReapSolution(s: State, pc: Pc): State
    requires s.world.sol.Zombie?
  {
    s.(pc := pc, world := s.world.(sol := Reap(s.world.sol)),
       vars := s.vars.(solStatus := Some(s.world.sol.status), solUsage := Some(s.world.sol.usage)),
       hist := s.hist.(entered := s.world.clock, solReaps := s.hist.solReaps + 1))
  }

  function ReapValidator(s: State, pc: Pc): State
    requires s.world.val.Zombie?
  {
    s.(pc := pc, world := s.world.(val := Reap(s.world.val)),
       vars := s.vars.(valStatus := Some(s.world.val.status)),
       hist := s.hist.(entered := s.world.clock, valReaps := s.hist.valReaps + 1))
  }

  function Stamp(c: Params, s: State, pc: Pc): State {
    Goto(s, pc).(vars := s.vars.(wall := Some(s.world.clock - c.started)))
  }

  /** SIGKILL to the process group of a child. */
  function SolutionGroupKilled(w: World): World { w.(sol := Kill(w.sol), solKin := false) }

  function ValidatorGroupKilled(w: World): World { w.(val := Kill(w.val), valKin := false) }

  function Prog(c: Params, s: State): State
    requires Enabled(s)
  {
    match s.pc
    case LoopTest =>
      Goto(s, if s.vars.solStatus.None? || s.vars.valStatus.None? then SampleNow else Sweep)
    case SampleNow =>
      s.(pc := PollSolution, vars := s.vars.(now := s.world.clock),
         hist := s.hist.(entered := s.world.clock, iterations := s.hist.iterations + 1))
    case PollSolution =>
      if s.vars.solStatus.None? && s.world.sol.Zombie? then ReapSolution(s, StampPolled)
      else if s.vars.solStatus.None?
      then s.(pc := PollValidator, hist := s.hist.(entered := s.world.clock, solPoll := s.world.clock))
      else Goto(s, PollValidator)
    case StampPolled => Stamp(c, s, PollValidator)
    case PollValidator =>
      if s.vars.valStatus.None? && s.world.val.Zombie? then ReapValidator(s, TestHardKill)
      else if s.vars.valStatus.None?
      then s.(pc := TestHardKill, hist := s.hist.(entered := s.world.clock, valPoll := Some(s.world.clock)))
      else Goto(s, TestHardKill)
    case TestHardKill =>
      if s.vars.solStatus.None? && c.Deadline() <= s.vars.now
      then Goto(s, AwaitSolution).(vars := s.vars.(solTimedOut := true), world := SolutionGroupKilled(s.world))
      else Goto(s, TestPair)
    case AwaitSolution => ReapSolution(s, StampKilled)
    case StampKilled => Stamp(c, s, LoopTest)
    case TestPair =>
      if s.vars.now < c.PairDeadline() then Goto(s, Sleeping).(vars := s.vars.(wake := s.world.clock + POLL))
      else if s.vars.solStatus.None?
      then Goto(s, PairAwaitSolution).(vars := s.vars.(pairTimedOut := true), world := SolutionGroupKilled(s.world))
      else Goto(s, PairValidator).(vars := s.vars.(pairTimedOut := true))
    case PairAwaitSolution => ReapSolution(s, PairStamp)
    case PairStamp => Stamp(c, s, PairValidator)
    case PairValidator =>
      if s.vars.valStatus.None? then Goto(s, AwaitValidator).(world := ValidatorGroupKilled(s.world))
      else Goto(s, Sweep)
    case AwaitValidator => ReapValidator(s, Sweep)
    case Sleeping => Goto(s, LoopTest)
    case Sweep =>
      Goto(s, if s.vars.valStatus.None? then LateAwait else Done)
      .(world := ValidatorGroupKilled(SolutionGroupKilled(s.world)))
    case LateAwait => ReapValidator(s, Done)
  }

  ghost predicate Next(c: Params, s: State, s': State) {
    Elapse(s, s') || (Enabled(s) && s' == Prog(c, s))
  }

  ghost predicate IsRun(c: Params, run: seq<State>) {
    && 0 < |run| && Init(c, run[0])
    && forall i :: 0 <= i < |run| - 1 ==> Next(c, run[i], run[i + 1])
  }

  function Last(run: seq<State>): State
    requires 0 < |run|
  {
    run[|run| - 1]
  }

  ghost predicate Finished(c: Params, run: seq<State>) {
    IsRun(c, run) && Last(run).pc == Done
  }

  lemma ExtendRun(c: Params, run: seq<State>, s: State)
    requires IsRun(c, run) && Next(c, Last(run), s)
    ensures IsRun(c, run + [s])
  {
    var run' := run + [s];
    forall i | 0 <= i < |run'| - 1 ensures Next(c, run'[i], run'[i + 1]) {
      if i == |run| - 1 { assert run'[i] == Last(run); }
    }
  }

  /** The supervisor takes its next step. */
  lemma Act(c: Params, run: seq<State>) returns (run': seq<State>)
    requires IsRun(c, run) && Enabled(Last(run))
    ensures run <= run' && IsRun(c, run') && Last(run') == Prog(c, Last(run))
  {
    ExtendRun(c, run, Prog(c, Last(run)));
    run' := run + [Prog(c, Last(run))];
  }

  /** The world moves. */
  lemma Wait(c: Params, run: seq<State>, w: World) returns (run': seq<State>)
    requires IsRun(c, run) && WorldMoves(Last(run).world, w)
    ensures run <= run' && IsRun(c, run') && Last(run') == Last(run).(world := w)
  {
    ExtendRun(c, run, Last(run).(world := w));
    run' := run + [Last(run).(world := w)];
  }

  // ----- how many 5 ms rounds are left before the pair deadline

  function RoundsLeft(c: Params, t: real): nat {
    if c.PairDeadline() <= t then 0 else ((c.PairDeadline() - t) / POLL).Floor + 1
  }

  lemma SleepUsesARound(c: Params, t: real, t': real)
    requires t < c.PairDeadline() && t + POLL <= t'
    ensures RoundsLeft(c, t') + 1 <= RoundsLeft(c, t)
  {
    var left, left' := (c.PairDeadline() - t) / POLL, (c.PairDeadline() - t') / POLL;
    assert left' + 1.0 <= left;
  }

  lemma RoundsOnlyShrink(c: Params, t: real, t': real)
    requires t <= t'
    ensures RoundsLeft(c, t') <= RoundsLeft(c, t)
  {
    if t' < c.PairDeadline() {
      assert (c.PairDeadline() - t') / POLL <= (c.PairDeadline() - t) / POLL;
    }
  }

  function Unreaped(s: State): nat {
    (if s.vars.solStatus.None? then 1 else 0) + (if s.vars.valStatus.None? then 1 else 0)
  }

  /** Rounds of the loop are bounded by the rounds left plus the children left:
      the `continue` after a hard kill skips the sleep but reaps a child. */
  function RoundBound(c: Params): nat { RoundsLeft(c, c.launched) + 3 }

  ghost predicate RoundsInv(c: Params, s: State) {
    && s.hist.iterations <= RoundBound(c)
    && match s.pc
       case LoopTest => s.hist.iterations + RoundsLeft(c, s.world.clock) + Unreaped(s) < RoundBound(c)
       case SampleNow => s.hist.iterations + RoundsLeft(c, s.world.clock) + Unreaped(s) < RoundBound(c)
       case StampKilled => s.hist.iterations + RoundsLeft(c, s.vars.now) + Unreaped(s) < RoundBound(c)
       case Sleeping =>
         && s.vars.now < c.PairDeadline() && s.vars.now + POLL <= s.vars.wake
         && s.hist.iterations + RoundsLeft(c, s.vars.now) + Unreaped(s) <= RoundBound(c)
       case PairAwaitSolution => true
       case PairStamp => true
       case PairValidator => true
       case AwaitValidator => true
       case Sweep => true
       case LateAwait => true
       case Done => true
       case _ => s.hist.iterations + RoundsLeft(c, s.vars.now) + Unreaped(s) <= RoundBound(c)
  }

  // ----- safety

  ghost predicate InRound(pc: Pc) {
    pc.PollSolution? || pc.StampPolled? || pc.PollValidator? || pc.TestHardKill? || pc.AwaitSolution?
    || pc.StampKilled? || pc.TestPair? || pc.PairValidator? || pc.AwaitValidator? || pc.Sleeping?
  }

  /** What the supervisor knows agrees with the process table. */
  ghost predicate BookKept(s: State) {
    && s.vars.solStatus == (if s.world.sol.Reaped? then Some(s.world.sol.status) else None)
    && s.vars.solUsage == (if s.world.sol.Reaped? then Some(s.world.sol.usage) else None)
    && s.vars.valStatus == (if s.world.val.Reaped? then Some(s.world.val.status) else None)
    && s.hist.solReaps == (if s.world.sol.Reaped? then 1 else 0)
    && s.hist.valReaps == (if s.world.val.Reaped? then 1 else 0)
    && (s.vars.wall.Some? <==> s.world.sol.Reaped? && !s.pc.StampPolled? && !s.pc.StampKilled?)
  }

  /** Kills are explained by flags, and no child is measured short. */
  ghost predicate Blame(c: Params, s: State) {
    && (s.world.sol.killed ==> s.vars.solTimedOut)
    && (s.world.val.killed ==> s.vars.pairTimedOut)
    && (s.vars.solTimedOut ==> s.pc.AwaitSolution? || s.world.sol.Reaped?)
    && (s.vars.solTimedOut && s.vars.wall.Some? ==> c.hardKill <= s.vars.wall.value)
    && (!s.world.sol.Running? ==> c.launched <= s.world.sol.at <= s.world.clock)
    && (!s.world.val.Running? ==> s.world.val.at <= s.world.clock)
    && (s.vars.wall.Some? && s.world.sol.Reaped? ==> s.world.sol.at - c.started <= s.vars.wall.value)
    && (s.vars.pairTimedOut ==> s.world.sol.Reaped? && c.PairDeadline() <= s.vars.now <= s.world.clock)
  }

  /** A child that has ended did so after the last poll that found it running; either
      child is killed only after a poll that found it running at or after its deadline. */
  ghost predicate Seen(c: Params, s: State) {
    && c.launched <= s.hist.solPoll <= s.world.clock
    && (!s.world.sol.Running? ==> s.hist.solPoll <= s.world.sol.at)
    && (s.pc.PollValidator? || s.pc.TestHardKill? ==> s.world.sol.Reaped? || s.vars.now <= s.hist.solPoll)
    && (s.vars.solTimedOut ==> c.Deadline() <= s.hist.solPoll)
    && c.launched <= s.hist.entered && (s.hist.valPoll.Some? ==> c.launched <= s.hist.valPoll.value <= s.world.clock)
    && (s.hist.valPoll.Some? && !s.world.val.Running? ==> s.hist.valPoll.value <= s.world.val.at)
    && (s.pc.TestHardKill? || s.pc.TestPair? || s.pc.PairValidator? ==>
          s.world.val.Reaped? || (s.hist.valPoll.Some? && s.vars.now <= s.hist.valPoll.value))
    && (s.world.val.killed ==> s.hist.valPoll.Some? && c.PairDeadline() <= s.hist.valPoll.value)
  }

  ghost predicate Control(c: Params, s: State) {
    && !s.pc.PairAwaitSolution? && !s.pc.PairStamp? && !s.pc.LateAwait?
    && c.launched <= s.world.clock && s.hist.entered <= s.world.clock
    && (InRound(s.pc) ==> c.launched <= s.vars.now <= s.world.clock)
    && (s.pc.StampPolled? || s.pc.StampKilled? ==> s.world.sol.Reaped?)
    && (s.pc.AwaitSolution? ==> !s.world.sol.Reaped?)
    && (s.pc.StampPolled? ==> !s.vars.solTimedOut)
    && (s.pc.AwaitSolution? || s.pc.StampKilled? ==> s.vars.solTimedOut && c.Deadline() <= s.vars.now)
    && (s.pc.TestPair? && !s.world.sol.Reaped? ==> s.vars.now < c.Deadline())
    && (s.pc.AwaitValidator? ==> s.world.sol.Reaped? && !s.world.val.Reaped?)
    && (s.pc.PairValidator? || s.pc.AwaitValidator? ==> s.vars.pairTimedOut)
    && (s.vars.pairTimedOut ==> s.pc.PairValidator? || s.pc.AwaitValidator? || s.pc.Sweep? || s.pc.Done?)
    && (s.pc.Sweep? || s.pc.Done? ==> s.world.sol.Reaped? && s.world.val.Reaped?)
    && (s.pc.Done? ==> !s.world.solKin && !s.world.valKin)
  }

  ghost predicate Inv(c: Params, s: State) {
    BookKept(s) && Blame(c, s) && Seen(c, s) && Control(c, s) && RoundsInv(c, s)
  }

  lemma InitInv(c: Params, s: State)
    requires c.Valid() && Init(c, s)
    ensures Inv(c, s)
  {
  }

  lemma ElapseKeepsInv(c: Params, s: State, s': State)
    requires c.Valid() && Inv(c, s) && Elapse(s, s')
    ensures Inv(c, s')
  {
    RoundsOnlyShrink(c, s.world.clock, s'.world.clock);
  }

  lemma ProgKeepsRounds(c: Params, s: State)
    requires c.Valid() && Inv(c, s) && Enabled(s)
    ensures RoundsInv(c, Prog(c, s))
  {
    var s' := Prog(c, s);
    if s.pc.Sleeping? {
      SleepUsesARound(c, s.vars.now, s.world.clock);
    } else if s.pc.StampKilled? {
      RoundsOnlyShrink(c, s.vars.now, s.world.clock);
    }
  }

  lemma ProgKeepsBooks(c: Params, s: State)
    requires c.Valid() && BookKept(s) && Blame(c, s) && Control(c, s) && Enabled(s)
    ensures BookKept(Prog(c, s))
  {
  }

  lemma ProgKeepsBlame(c: Params, s: State)
    requires c.Valid() && BookKept(s) && Blame(c, s) && Control(c, s) && Enabled(s)
    ensures Blame(c, Prog(c, s))
  {
  }

  lemma ProgKeepsSeen(c: Params, s: State)
    requires c.Valid() && BookKept(s) && Blame(c, s) && Seen(c, s) && Control(c, s) && Enabled(s)
    ensures Seen(c, Prog(c, s))
  {
  }

  lemma ProgKeepsControl(c: Params, s: State)
    requires c.Valid() && BookKept(s) && Blame(c, s) && Control(c, s) && Enabled(s)
    ensures Control(c, Prog(c, s))
  {
  }

  lemma ProgKeepsInv(c: Params, s: State)
    requires c.Valid() && Inv(c, s) && Enabled(s)
    ensures Inv(c, Prog(c, s))
  {
    ProgKeepsBooks(c, s);
    ProgKeepsBlame(c, s);
    ProgKeepsSeen(c, s);
    ProgKeepsControl(c, s);
    ProgKeepsRounds(c, s);
  }

  /** The invariant holds at every point of every interleaving. */
  lemma {:induction false} RunInv(c: Params, run: seq<State>)
    requires c.Valid() && IsRun(c, run)
    ensures forall i :: 0 <= i < |run| ==> Inv(c, run[i])
  {
    InitInv(c, run[0]);
    for i := 1 to |run|
      invariant forall j :: 0 <= j < i ==> Inv(c, run[j])
    {
      assert Next(c, run[i - 1], run[i - 1 + 1]);
      if Elapse(run[i - 1], run[i]) {
        ElapseKeepsInv(c, run[i - 1], run[i]);
      } else {
        ProgKeepsInv(c, run[i - 1]);
      }
    }
  }

  /** What the supervisor knows is right at the end of any run so far. */
  lemma RunBooks(c: Params, run: seq<State>)
    requires c.Valid() && IsRun(c, run)
    ensures BookKept(Last(run))
  {
    RunInv(c, run);
  }

  /** The loop counter stays below its bound on any run so far. */
  lemma RunRounds(c: Params, run: seq<State>)
    requires c.Valid() && IsRun(c, run)
    ensures Last(run).hist.iterations <= RoundBound(c)
    ensures c.launched < c.PairDeadline() ==>
              Last(run).hist.iterations as real <= (c.PairDeadline() - c.launched) / 0.005 + 4.0
  {
    RunInv(c, run);
  }

  // ----- branches that are never taken

  ghost predicate Reaches(c: Params, pc: Pc) {
    exists run: seq<State> :: IsRun(c, run) && Last(run).pc == pc
  }

  /** Whatever the two timeouts are: the loop is left with both statuses known, and the
      solution is killed for the pair only between the pair deadline and its own. */
  ghost predicate Exits(c: Params, s: State) {
    && c.launched <= s.world.clock && !s.pc.LateAwait?
    && (s.pc.Sweep? ==> s.vars.valStatus.Some?)
    && (InRound(s.pc) || s.pc.PairAwaitSolution? || s.pc.PairStamp? ==> c.launched <= s.vars.now)
    && (s.pc.TestPair? && s.vars.solStatus.None? ==> s.vars.now < c.Deadline())
    && (s.pc.PairAwaitSolution? ==> c.PairDeadline() <= s.vars.now < c.Deadline())
  }

  lemma NextKeepsExits(c: Params, s: State, s': State)
    requires Exits(c, s) && Next(c, s, s')
    ensures Exits(c, s')
  {
  }

  lemma {:induction false} RunExits(c: Params, run: seq<State>)
    requires IsRun(c, run)
    ensures Exits(c, Last(run))
  {
    if 1 < |run| {
      var shorter := run[..|run| - 1];
      forall i | 0 <= i < |shorter| - 1 ensures Next(c, shorter[i], shorter[i + 1]) {
        assert Next(c, run[i], run[i + 1]);
      }
      RunExits(c, shorter);
      assert Next(c, run[|run| - 2], run[|run| - 2 + 1]);
      NextKeepsExits(c, Last(shorter), Last(run));
    }
  }

  /** The late wait for the validator is dead code, for every pair of timeouts. */
  lemma LateAwaitIsDead(c: Params)
    ensures !Reaches(c, LateAwait)
  {
    forall run: seq<State> | IsRun(c, run) ensures Last(run).pc != LateAwait {
      RunExits(c, run);
    }
  }

  ghost function Begin(c: Params): State
    ensures Init(c, Begin(c))
  {
    State(LoopTest, World(c.launched, Running(false), Running(false), false, false),
          Vars(c.launched, c.launched, None, None, None, None, false, false),
          History(0, 0, 0, c.launched, None, c.launched))
  }

  /** The pair deadline can kill the solution exactly when it can come before the hard kill
      of a solution launched in time. */
  lemma PairKillReachableIff(c: Params)
    ensures Reaches(c, PairAwaitSolution) <==> c.pairTimeout < c.hardKill && c.launched < c.Deadline()
  {
    if c.pairTimeout < c.hardKill && c.launched < c.Deadline() {
      var run := [Begin(c)];
      run := Act(c, run);
      var later := if c.launched < c.PairDeadline() then c.PairDeadline() else c.launched;
      run := Wait(c, run, Last(run).world.(clock := later));
      run := Act(c, run);
      run := Act(c, run);
      run := Act(c, run);
      run := Act(c, run);
      run := Act(c, run);
    } else {
      forall run: seq<State> | IsRun(c, run) ensures Last(run).pc != PairAwaitSolution {
        RunExits(c, run);
      }
    }
  }
}
