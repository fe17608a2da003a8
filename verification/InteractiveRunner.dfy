/**
 The loop of image/interactive_runner.py, written as the program writes it, and
 proved to be a run of `InteractiveMachine`.

 `clock`, `sol` and `val` belong to the world: `Interfere` lets any time pass and
 either child end, and precedes every system call.  The ghost field `run` is the
 run performed so far.
 */
module InteractiveRunner {
  import opened Options
  import opened Processes
  import opened Rounding
  import opened InteractiveMachine
  import opened InteractiveBlame

  /** A running child ends with any status. */
  method End(p: Process, at: real) returns (p': Process)
    requires p.Running?
    ensures p'.Zombie? && p'.at == at && p'.killed == p.killed
  {
    var status: Status, usage: Usage := *, *;
    p' := Zombie(status, usage, at, p.killed);
  }

  /** A child may end at any instant of an interval. */
  method MayEnd(p: Process, from: real, to: real) returns (p': Process)
    requires from <= to
    ensures Evolves(p, p', from, to)
  {
    p' := p;
    var ends: bool, at: real := *, *;
    if ends && p.Running? && from <= at <= to {
      p' := End(p, at);
    }
  }

  class Supervisor {
    const c: Params
    /** What only the operating system changes, apart from kills and waits. */
    var world: World
    // the variables of the program
    var now: real
    var wake: real
    var solStatus: Option<Status>
    var solUsage: Option<Usage>
    var valStatus: Option<Status>
    var wall: Option<real>
    var solTimedOut: bool
    var pairTimedOut: bool
    // history
    ghost var pc: Pc
    ghost var hist: History
    ghost var run: seq<State>

    ghost function View(): State
      reads this
    {
      State(pc, world, Vars(now, wake, solStatus, solUsage, valStatus, wall, solTimedOut, pairTimedOut), hist)
    }

    ghost predicate Valid()
      reads this
    {
      c.Valid() && IsRun(c, run) && Last(run) == View()
    }

    /** The solution has just been launched; the validator was launched before it and
        may have ended already. */
    constructor (c: Params, validator: Process, kin: bool)
      requires c.Valid()
      requires !validator.Reaped? && !validator.killed && (validator.Zombie? ==> validator.at <= c.launched)
      ensures Valid() && pc == LoopTest && this.c == c && world.val == validator && world.valKin == kin && |run| == 1
    {
      this.c := c;
      world := World(c.launched, Running(false), validator, false, kin);
      now, wake := c.launched, c.launched;
      solStatus, solUsage, valStatus, wall := None, None, None, None;
      solTimedOut, pairTimedOut := false, false;
      pc, hist := LoopTest, History(0, 0, 0, c.launched, None, c.launched);
      run := [State(LoopTest, World(c.launched, Running(false), validator, false, kin),
                    Vars(c.launched, c.launched, None, None, None, None, false, false),
                    History(0, 0, 0, c.launched, None, c.launched))];
    }

    /** Log that the world moved since the last entry. */
    ghost method Moved()
      requires c.Valid() && IsRun(c, run) && Elapse(Last(run), View())
      modifies `run
      ensures Valid() && old(run) <= run
    {
      ExtendRun(c, run, View());
      run := run + [View()];
    }

    /** Anything the world can do between two instants. */
    method Interfere()
      requires Valid()
      modifies `world, `run
      ensures Valid() && old(run) <= run
      ensures Elapse(old(View()), View())
    {
      var later: real := *;
      if later < world.clock {
        later := world.clock;
      }
      var sol := MayEnd(world.sol, world.clock, later);
      var val := MayEnd(world.val, world.clock, later);
      var solKin: bool, valKin: bool := *, *;
      world := World(later, sol, val, solKin && (world.sol.Running? || world.solKin),
                     valKin && (world.val.Running? || world.valKin));
      Moved();
    }

    /** A blocking wait returns once the solution has ended. */
    method UntilSolutionEnds()
      requires Valid() && !world.sol.Reaped?
      modifies `world, `run
      ensures Valid() && old(run) <= run && world.sol.Zombie?
    {
      Interfere();
      if world.sol.Running? {
        var sol := End(world.sol, world.clock);
        world := world.(sol := sol);
        Moved();
      }
    }

    method UntilValidatorEnds()
      requires Valid() && !world.val.Reaped?
      modifies `world, `run
      ensures Valid() && old(run) <= run && world.val.Zombie?
    {
      Interfere();
      if world.val.Running? {
        var val := End(world.val, world.clock);
        world := world.(val := val);
        Moved();
      }
    }

    method UntilAwake()
      requires Valid()
      modifies `world, `run
      ensures Valid() && old(run) <= run && wake <= world.clock
    {
      Interfere();
      if world.clock < wake {
        world := world.(clock := wake);
        Moved();
      }
    }

    /** Record that the assignments since the last entry were one step of the program. */
    ghost method Took()
      requires c.Valid() && IsRun(c, run) && Enabled(Last(run))
      requires var s := Prog(c, Last(run));
               && world == s.world
               && Vars(now, wake, solStatus, solUsage, valStatus, wall, solTimedOut, pairTimedOut) == s.vars
      modifies `pc, `hist, `run
      ensures Valid() && old(run) <= run && View() == Prog(c, Last(old(run)))
    {
      var run' := Act(c, run);
      run := run';
      pc, hist := Last(run).pc, Last(run).hist;
    }

    /** `now = time.monotonic()` */
    method SampleClock()
      requires Valid() && pc == LoopTest && (solStatus.None? || valStatus.None?)
      modifies this
      ensures Valid() && old(run) <= run && pc == PollSolution && hist.iterations == old(hist.iterations) + 1
    {
      Took();
      Interfere();
      now := world.clock;
      Took();
    }

    /** `wall = time.monotonic() - started` */
    method StampWall()
      requires Valid() && (pc == StampPolled || pc == StampKilled || pc == PairStamp)
      modifies this
      ensures Valid() && old(run) <= run && hist.iterations == old(hist.iterations)
      ensures pc == if old(pc) == StampKilled then LoopTest
                    else if old(pc) == StampPolled then PollValidator else PairValidator
    {
      Interfere();
      wall := Some(world.clock - c.started);
      Took();
    }

    /** `os.wait4(solution.pid, 0)` after a kill */
    method AwaitKilledSolution()
      requires Valid() && (pc == AwaitSolution || pc == PairAwaitSolution) && solStatus.None?
      modifies this
      ensures Valid() && old(run) <= run && hist.iterations == old(hist.iterations)
      ensures pc == if old(pc) == AwaitSolution then StampKilled else PairStamp
    {
      RunBooks(c, run);
      UntilSolutionEnds();
      solStatus, solUsage := Some(world.sol.status), Some(world.sol.usage);
      world := world.(sol := Reap(world.sol));
      Took();
    }

    /** `os.wait4(solution.pid, os.WNOHANG)` and, on success, the wall time */
    method CollectSolution()
      requires Valid() && pc == PollSolution
      modifies this
      ensures Valid() && old(run) <= run && pc == PollValidator && hist.iterations == old(hist.iterations)
    {
      Interfere();
      if solStatus.None? && world.sol.Zombie? {
        solStatus, solUsage := Some(world.sol.status), Some(world.sol.usage);
        world := world.(sol := Reap(world.sol));
        Took();
        StampWall();
      } else {
        Took();
      }
    }

    /** `os.waitpid(validator.pid, os.WNOHANG)` */
    method CollectValidator()
      requires Valid() && pc == PollValidator
      modifies this
      ensures Valid() && old(run) <= run && pc == TestHardKill && hist.iterations == old(hist.iterations)
    {
      Interfere();
      if valStatus.None? && world.val.Zombie? {
        valStatus := Some(world.val.status);
        world := world.(val := Reap(world.val));
      }
      Took();
    }

    /** The branch of the hard kill: kill, wait, measure. */
    method KillSolution()
      requires Valid() && pc == TestHardKill && solStatus.None? && c.Deadline() <= now
      modifies this
      ensures Valid() && old(run) <= run && pc == LoopTest && hist.iterations == old(hist.iterations)
    {
      Interfere();
      solTimedOut := true;
      world := SolutionGroupKilled(world);
      Took();
      AwaitKilledSolution();
      StampWall();
    }

    /** The branch of the pair deadline, first half: the solution, if it is left. */
    method EndPairSolution()
      requires Valid() && pc == TestPair && c.PairDeadline() <= now
      modifies this
      ensures Valid() && old(run) <= run && pc == PairValidator && hist.iterations == old(hist.iterations)
    {
      Interfere();
      pairTimedOut := true;
      if solStatus.None? {
        world := SolutionGroupKilled(world);
        Took();
        AwaitKilledSolution();
        StampWall();
      } else {
        Took();
      }
    }

    /** The branch of the pair deadline, second half: the validator, if it is left. */
    method EndPairValidator()
      requires Valid() && pc == PairValidator
      modifies this
      ensures Valid() && old(run) <= run && pc == Sweep && hist.iterations == old(hist.iterations)
    {
      Interfere();
      if valStatus.None? {
        world := ValidatorGroupKilled(world);
        Took();
        AwaitLeftValidator();
      } else {
        Took();
      }
    }

    /** `os.waitpid(validator.pid, 0)` */
    method AwaitLeftValidator()
      requires Valid() && (pc == AwaitValidator || pc == LateAwait) && valStatus.None?
      modifies this
      ensures Valid() && old(run) <= run && hist.iterations == old(hist.iterations)
      ensures pc == if old(pc) == AwaitValidator then Sweep else Done
    {
      RunBooks(c, run);
      UntilValidatorEnds();
      valStatus := Some(world.val.status);
      world := world.(val := Reap(world.val));
      Took();
    }

    /** `time.sleep(0.005)` */
    method Sleep()
      requires Valid() && pc == TestPair && now < c.PairDeadline()
      modifies this
      ensures Valid() && old(run) <= run && pc == LoopTest && hist.iterations == old(hist.iterations)
    {
      Interfere();
      wake := world.clock + POLL;
      Took();
      UntilAwake();
      Took();
    }

    /** The final kills, and the late wait for the validator. */
    method SweepUp()
      requires Valid() && pc == Sweep
      modifies this
      ensures Valid() && old(run) <= run && pc == Done && hist.iterations == old(hist.iterations)
    {
      Interfere();
      world := ValidatorGroupKilled(SolutionGroupKilled(world));
      Took();
      if valStatus.None? {
        AwaitLeftValidator();
      }
    }

    /** The result record, from the program's own variables. */
    method Report() returns (record: Raw)
      requires Valid() && pc == Done
      ensures Finished(c, run) && HasRecord(Last(run)) && record == Record(Last(run))
    {
      RunInv(c, run);
      record := Raw(
        SolutionRecord(Micro(wall.value), Micro(solUsage.value.cpu), solUsage.value.maxRssKib,
                       ExitCode(solStatus.value), TermSignal(solStatus.value), solTimedOut),
        ExitCode(valStatus.value), TermSignal(valStatus.value), pairTimedOut);
    }

    /** One round of the loop; `over` when the pair deadline ended it. */
    method Round() returns (over: bool)
      requires Valid() && pc == LoopTest && (solStatus.None? || valStatus.None?)
      modifies this
      ensures Valid() && old(run) <= run && hist.iterations == old(hist.iterations) + 1
      ensures pc == if over then Sweep else LoopTest
    {
      SampleClock();
      CollectSolution();
      CollectValidator();
      if solStatus.None? && c.Deadline() <= now {
        KillSolution();
        return false;
      }
      Took();
      if c.PairDeadline() <= now {
        EndPairSolution();
        EndPairValidator();
        return true;
      }
      Sleep();
      return false;
    }

    /** The whole supervisor: it terminates, and what it reports is the record of a
        finished run of the machine. */
    method Supervise() returns (record: Raw)
      requires Valid() && pc == LoopTest
      modifies this
      ensures Valid() && old(run) <= run
      ensures Finished(c, run) && HasRecord(Last(run)) && record == Record(Last(run))
    {
      RunRounds(c, run);
      var over := false;
      while !over && (solStatus.None? || valStatus.None?)
        invariant Valid() && old(run) <= run && hist.iterations <= RoundBound(c)
        invariant pc == if over then Sweep else LoopTest
        decreases RoundBound(c) - hist.iterations
      {
        over := Round();
        RunRounds(c, run);
      }
      if !over {
        Took();
      }
      SweepUp();
      record := Report();
    }
  }
}
