/**
 The main loop of image/runner.py, written as the program writes it, and proved to be
 a run of `BatchMachine`.  The world and the watcher thread may move any number of
 times before every system call and every access to a shared variable (`Interfere`).
 */
module BatchRunner {
  import opened Options
  import opened Processes
  import opened Rounding
  import opened Results
  import opened BatchMachine
  import opened BatchBlame

  class Supervisor {
    const c: Params
    /** What the operating system changes, apart from kills and waits. */
    var world: World
    /** The watcher thread and `watcher_result`, the list it appends to. */
    var watcher: Watcher
    // the variables of the program
    var now: real
    var wake: real
    var joinBy: real
    var stop: bool
    var status: Option<Status>
    var usage: Option<Usage>
    var wall: Option<real>
    var timedOut: bool
    var exceeded: bool
    // history
    ghost var pc: Pc
    ghost var hist: History
    ghost var run: seq<State>

    ghost function View(): State
      reads this
    {
      State(pc, world, watcher, Vars(now, wake, joinBy, stop, status, usage, wall, timedOut, exceeded), hist)
    }

    ghost predicate Valid()
      reads this
    {
      c.Valid() && IsRun(c, run) && Last(run) == View()
    }

    /** The child and the watcher thread have just been started. */
    constructor (c: Params)
      requires c.Valid()
      ensures Valid() && pc == PollChild && this.c == c && |run| == 1
    {
      this.c := c;
      world := World(c.launched, Running(false), false, false, Some(0));
      watcher := Watcher(WaitStop, c.launched + WATCH, None);
      now, wake, joinBy, stop := c.launched, c.launched, c.launched, false;
      status, usage, wall, timedOut, exceeded := None, None, None, false, false;
      pc, hist := PollChild, History(false, 0, 0, c.launched, c.launched, c.launched, None, false);
      run := [State(PollChild, World(c.launched, Running(false), false, false, Some(0)),
                    Watcher(WaitStop, c.launched + WATCH, None),
                    Vars(c.launched, c.launched, c.launched, false, None, None, None, false, false),
                    History(false, 0, 0, c.launched, c.launched, c.launched, None, false))];
    }

    /** Log that the world moved since the last entry. */
    ghost method Moved()
      requires c.Valid() && IsRun(c, run) && Elapse(Last(run), View())
      modifies `run
      ensures Valid() && old(run) <= run
    {
      ExtendRun(c, run, View());
      run := run + [View()];
    }

    /** Time passes; the child may end; living writers may fork and touch the file. */
    method Elapsed()
      requires Valid()
      modifies `world, `run
      ensures Valid() && old(run) <= run
    {
      var later: real, ends: bool, end: Status, spent: Usage, at: real := *, *, *, *, *;
      var kin: bool, stray: bool, file: Option<nat> := *, *, *;
      if later < world.clock {
        later := world.clock;
      }
      var writing := world.child.Running? || world.kin || world.stray;
      var child := world.child;
      if ends && child.Running? && world.clock <= at <= later {
        child := Zombie(end, spent, at, child.killed);
      }
      world := World(later, child, kin && (world.child.Running? || world.kin), writing && stray,
                     if writing then file else world.file);
      Moved();
    }

    /** One step of `watch_output_size`: its wait, its look at the size, or its return. */
    method WatcherSteps()
      requires Valid() && WatchEnabled(View())
      modifies `watcher, `hist, `run
      ensures Valid() && old(run) <= run && hist == old(hist).(watched := hist.watched)
    {
      match watcher.phase {
        case WaitStop =>
          watcher := watcher.(phase := if stop then Returning(false) else CheckSize);
        case CheckSize =>
          if Over(c.outputLimit, world.file) {
            watcher := watcher.(phase := Returning(true));
          } else {
            watcher := watcher.(phase := WaitStop, wake := world.clock + WATCH);
          }
        case Returning(result) =>
          watcher := watcher.(phase := Ended, result := Some(result));
      }
      var run' := WatcherActs(c, run);
      run := run';
      hist := Last(run).hist;
    }

    /** Any number of moves of the world and of the watcher. */
    method Interfere()
      requires Valid()
      modifies `world, `watcher, `hist, `run
      ensures Valid() && old(run) <= run && hist == old(hist).(watched := hist.watched)
    {
      var moves: nat := *;
      while 0 < moves
        invariant Valid() && old(run) <= run && hist == old(hist).(watched := hist.watched)
      {
        var thread: bool := *;
        if thread && (watcher.phase.CheckSize? || watcher.phase.Returning?
                      || (watcher.phase.WaitStop? && (stop || watcher.wake <= world.clock))) {
          WatcherSteps();
        } else {
          Elapsed();
        }
        moves := moves - 1;
      }
    }

    /** Record that the assignments since the last entry were one step of the main loop. */
    ghost method Took()
      requires c.Valid() && IsRun(c, run) && Enabled(Last(run))
      requires var s := Prog(c, Last(run));
               && world == s.world && watcher == s.watcher
               && Vars(now, wake, joinBy, stop, status, usage, wall, timedOut, exceeded) == s.vars
      modifies `pc, `hist, `run
      ensures Valid() && old(run) <= run && View() == Prog(c, Last(old(run)))
    {
      var run' := Act(c, run);
      run := run';
      pc, hist := Last(run).pc, Last(run).hist;
    }

    /** `os.wait4(child.pid, os.WNOHANG)`; `ended` when it returned the child. */
    method PollOnce() returns (ended: bool)
      requires Valid() && pc == PollChild
      modifies this
      ensures Valid() && old(run) <= run && hist.iterations == old(hist.iterations)
      ensures pc == if ended then StampWall else SampleNow
    {
      Interfere();
      ended := world.child.Zombie?;
      if ended {
        status, usage := Some(world.child.status), Some(world.child.usage);
        world := world.(child := Reap(world.child));
      }
      Took();
    }

    /** `now = time.monotonic()` */
    method SampleClock()
      requires Valid() && pc == SampleNow
      modifies this
      ensures Valid() && old(run) <= run && pc == TestWatcher && hist.iterations == old(hist.iterations) + 1
    {
      Interfere();
      now := world.clock;
      Took();
    }

    /** `os.wait4(child.pid, 0)` after a kill */
    method AwaitKilledChild()
      requires Valid() && pc == AwaitChild
      modifies this
      ensures Valid() && old(run) <= run && pc == StampWall && hist.iterations == old(hist.iterations)
    {
      Interfere();
      RunBooks(c, run);
      if world.child.Running? {
        var end: Status, spent: Usage := *, *;
        world := world.(child := Zombie(end, spent, world.clock, world.child.killed));
        Moved();
      }
      status, usage := Some(world.child.status), Some(world.child.usage);
      world := world.(child := Reap(world.child));
      Took();
    }

    /** `if watcher_result and watcher_result[0]`: kill for the output size. */
    method KillForOutput() returns (killed: bool)
      requires Valid() && pc == TestWatcher
      modifies this
      ensures Valid() && old(run) <= run && hist.iterations == old(hist.iterations)
      ensures pc == if killed then StampWall else TestDeadline
    {
      Interfere();
      killed := watcher.result == Some(true);
      if killed {
        exceeded := true;
        world := KillGroup(world);
        Took();
        AwaitKilledChild();
      } else {
        Took();
      }
    }

    /** `if now >= deadline`: the hard kill. */
    method KillForTime() returns (killed: bool)
      requires Valid() && pc == TestDeadline
      modifies this
      ensures Valid() && old(run) <= run && hist.iterations == old(hist.iterations)
      ensures pc == if killed then StampWall else Sleeping
    {
      Interfere();
      killed := c.Deadline() <= now;
      if killed {
        timedOut := true;
        world := KillGroup(world);
        Took();
        AwaitKilledChild();
      } else {
        wake := world.clock + POLL;
        Took();
      }
    }

    /** `time.sleep(0.002)` */
    method Sleep()
      requires Valid() && pc == Sleeping
      modifies this
      ensures Valid() && old(run) <= run && pc == PollChild && hist.iterations == old(hist.iterations)
    {
      Interfere();
      if world.clock < wake {
        world := world.(clock := wake);
        Moved();
      }
      Took();
    }

    /** One round of the loop; `over` when it broke out. */
    method Round() returns (over: bool)
      requires Valid() && pc == PollChild
      modifies this
      ensures Valid() && old(run) <= run && pc == if over then StampWall else PollChild
      ensures !over ==> hist.iterations == old(hist.iterations) + 1
    {
      over := PollOnce();
      if over { return; }
      SampleClock();
      over := KillForOutput();
      if over { return; }
      over := KillForTime();
      if over { return; }
      Sleep();
    }

    /** `wall = time.monotonic() - started` */
    method TakeWall()
      requires Valid() && pc == StampWall
      modifies this
      ensures Valid() && old(run) <= run && pc == SetStop
    {
      Interfere();
      wall := Some(world.clock - c.started);
      Took();
    }

    /** `stop.set()` */
    method StopWatcher()
      requires Valid() && pc == SetStop
      modifies this
      ensures Valid() && old(run) <= run && pc == JoinWatcher
    {
      Interfere();
      stop, joinBy := true, world.clock + JOIN;
      Took();
    }

    /** `watcher.join(timeout=1.0)` */
    method Join()
      requires Valid() && pc == JoinWatcher
      modifies this
      ensures Valid() && old(run) <= run && pc == KillLeft
    {
      Interfere();
      if !watcher.phase.Ended? && world.clock < joinBy {
        world := world.(clock := joinBy);
        Moved();
      }
      Took();
    }

    /** The last `killpg`. */
    method KillLeftovers()
      requires Valid() && pc == KillLeft
      modifies this
      ensures Valid() && old(run) <= run && pc == FinalCheck
    {
      Interfere();
      world := KillGroup(world);
      Took();
    }

    /** The last look at the size of the output. */
    method CheckOutput()
      requires Valid() && pc == FinalCheck
      modifies this
      ensures Valid() && old(run) <= run && pc == Done
    {
      Interfere();
      if !exceeded {
        exceeded := Over(c.outputLimit, world.file);
      }
      Took();
    }

    /** The result record, from the program's own variables; `oomKilled` is the container's. */
    method Report(oomKilled: bool) returns (record: RunMeasurement)
      requires Valid() && pc == Done
      ensures Finished(c, run) && HasRecord(Last(run)) && record == Measurement(Last(run), oomKilled)
    {
      RunInv(c, run);
      record := RunMeasurement(
        Micro(wall.value), Micro(usage.value.cpu), usage.value.maxRssKib,
        ExitCode(status.value), TermSignal(status.value), timedOut, exceeded, oomKilled);
    }

    /** The whole supervisor: it terminates whatever the watcher does, and what it reports
        is the record of a finished run of the machine. */
    method Supervise(oomKilled: bool) returns (record: RunMeasurement)
      requires Valid() && pc == PollChild
      modifies this
      ensures Valid() && old(run) <= run
      ensures Finished(c, run) && HasRecord(Last(run)) && record == Measurement(Last(run), oomKilled)
    {
      RunRounds(c, run);
      var over := false;
      while !over
        invariant Valid() && old(run) <= run && hist.iterations <= RoundBound(c)
        invariant pc == if over then StampWall else PollChild
        decreases !over, RoundBound(c) - hist.iterations
      {
        over := Round();
        RunRounds(c, run);
      }
      TakeWall();
      StopWatcher();
      Join();
      KillLeftovers();
      CheckOutput();
      record := Report(oomKilled);
    }
  }
}
