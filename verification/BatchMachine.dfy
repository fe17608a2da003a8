/**
 The batch supervisor (image/runner.py) as a step relation over three actors: the
 world (clock, child, output file), the main loop and the thread that watches the
 size of the output file.  Any actor may move at any time, one system call or one
 shared access at a time.
 */
module BatchMachine {
  import opened Options
  import opened Processes

  datatype Params = Params(started: real, launched: real, hardKill: real, outputLimit: nat) {
    ghost predicate Valid() { started <= launched }
    function Deadline(): real { started + hardKill }
  }

  const POLL := 0.002
  const WATCH := 0.05
  const JOIN := 1.0

  datatype Pc =
    | PollChild | SampleNow | TestWatcher | TestDeadline | Sleeping
    | AwaitChild | StampWall | SetStop | JoinWatcher | KillLeft | FinalCheck | Done

  datatype WatchPhase = WaitStop | CheckSize | Returning(result: bool) | Ended

  /** Other processes that can write the output file: `kin` lives in the child's process group
      and dies with it, `stray` has left the group. */
  datatype World = World(clock: real, child: Process, kin: bool, stray: bool, file: Option<nat>)

  datatype Watcher = Watcher(phase: WatchPhase, wake: real, result: Option<bool>)

  datatype Vars = Vars(
    now: real, wake: real, joinBy: real, stop: bool,
    status: Option<Status>, usage: Option<Usage>, wall: Option<real>, timedOut: bool, exceeded: bool)

  /** `sentKill` a kill was issued, `iterations` rounds of the loop, `reaps` successful
      waits, `poll` the last poll that found the child running, `entered` the clock when
      the current call was issued, `watched` the clock when the watcher entered its phase,
      `checked` and `quiet` the file size and the absence of stray writers at the final
      check. */
  datatype History = History(
    sentKill: bool, iterations: nat, reaps: nat, poll: real, entered: real,
    watched: real, checked: Option<nat>, quiet: bool)

  datatype State = State(pc: Pc, world: World, watcher: Watcher, vars: Vars, hist: History)

  ghost predicate Init(c: Params, s: State) {
    && s.pc == PollChild
    && s.world == World(c.launched, Running(false), false, s.world.stray, Some(0))
    && s.watcher == Watcher(WaitStop, c.launched + WATCH, None)
    && s.vars == Vars(s.vars.now, s.vars.wake, s.vars.joinBy, false, None, None, None, false, false)
    && s.hist == History(false, 0, 0, c.launched, c.launched, c.launched, None, false)
  }

  ghost predicate HasWriter(w: World) { w.child.Running? || w.kin || w.stray }

  /** Time passes, the child may end, and whoever is alive may fork and may write,
      truncate, remove or replace the output file. */
  ghost predicate WorldMoves(w: World, w': World) {
    && w.clock <= w'.clock
    && Evolves(w.child, w'.child, w.clock, w'.clock)
    && (w'.kin ==> w.child.Running? || w.kin)
    && (w'.stray ==> HasWriter(w))
    && (w'.file != w.file ==> HasWriter(w))
  }

  ghost predicate Elapse(s: State, s': State) {
    s' == s.(world := s'.world) && WorldMoves(s.world, s'.world)
  }

  predicate Over(limit: nat, file: Option<nat>) { file.Some? && limit < file.value }

  // ----- the watcher thread

  predicate WatchEnabled(s: State) {
    match s.watcher.phase
    case WaitStop => s.vars.stop || s.watcher.wake <= s.world.clock
    case Ended => false
    case _ => true
  }

  function Watch(c: Params, s: State): State
    requires WatchEnabled(s)
  {
    var w := s.watcher;
    s.(hist := s.hist.(watched := s.world.clock), watcher :=
      match w.phase
      case WaitStop => w.(phase := if s.vars.stop then Returning(false) else CheckSize)
      case CheckSize =>
        if Over(c.outputLimit, s.world.file) then w.(phase := Returning(true))
        else w.(phase := WaitStop, wake := s.world.clock + WATCH)
      case Returning(result) => w.(phase := Ended, result := Some(result)))
  }

  // ----- the main loop

  predicate Enabled(s: State) {
    match s.pc
    case Sleeping => s.vars.wake <= s.world.clock
    case AwaitChild => s.world.child.Zombie?
    case JoinWatcher => s.watcher.phase.Ended? || s.vars.joinBy <= s.world.clock
    case Done => false
    case _ => true
  }

  function Goto(s: State, pc: Pc): State { s.(pc := pc, hist := s.hist.(entered := s.world.clock)) }

  function ReapChild(s: State): State
    requires s.world.child.Zombie?
  {
    var s' := Goto(s, StampWall);
    s'.(world := s.world.(child := Reap(s.world.child)),
        vars := s.vars.(status := Some(s.world.child.status), usage := Some(s.world.child.usage)),
        hist := s'.hist.(reaps := s.hist.reaps + 1))
  }

  /** SIGKILL to the child's process group. */
  function KillGroup(w: World): World { w.(child := Kill(w.child), kin := false) }

  function KillChild(s: State): State {
    var s' := Goto(s, AwaitChild);
    s'.(world := KillGroup(s.world), hist := s'.hist.(sentKill := true))
  }

  function Prog(c: Params, s: State): State
    requires Enabled(s)
  {
    match s.pc
    case PollChild =>
      if s.world.child.Zombie? then ReapChild(s)
      else s.(pc := SampleNow, hist := s.hist.(entered := s.world.clock, poll := s.world.clock))
    case SampleNow =>
      s.(pc := TestWatcher, vars := s.vars.(now := s.world.clock),
         hist := s.hist.(entered := s.world.clock, iterations := s.hist.iterations + 1))
    case TestWatcher =>
      if s.watcher.result == Some(true) then KillChild(s).(vars := s.vars.(exceeded := true))
      else Goto(s, TestDeadline)
    case TestDeadline =>
      if c.Deadline() <= s.vars.now then KillChild(s).(vars := s.vars.(timedOut := true))
      else Goto(s, Sleeping).(vars := s.vars.(wake := s.world.clock + POLL))
    case Sleeping => Goto(s, PollChild)
    case AwaitChild => ReapChild(s)
    case StampWall => Goto(s, SetStop).(vars := s.vars.(wall := Some(s.world.clock - c.started)))
    case SetStop => Goto(s, JoinWatcher).(vars := s.vars.(stop := true, joinBy := s.world.clock + JOIN))
    case JoinWatcher => Goto(s, KillLeft)
    case KillLeft => Goto(s, FinalCheck).(world := KillGroup(s.world))
    case FinalCheck =>
      s.(pc := Done,
         vars := s.vars.(exceeded := s.vars.exceeded || Over(c.outputLimit, s.world.file)),
         hist := s.hist.(entered := s.world.clock, checked := s.world.file, quiet := !s.world.stray))
  }

  ghost predicate Next(c: Params, s: State, s': State) {
    Elapse(s, s') || (WatchEnabled(s) && s' == Watch(c, s)) || (Enabled(s) && s' == Prog(c, s))
  }

  ghost predicate IsRun(c: Params, run: seq<State>) {
    && 0 < |run| && Init(c, run[0])
    && forall i :: 0 <= i < |run| - 1 ==> Next(c, run[i], run[i + 1])
  }

  function Last(run: seq<State>): State
    requires 0 < |run|
  {
    run[|run| - 1]
  }

  ghost predicate Finished(c: Params, run: seq<State>) {
    IsRun(c, run) && Last(run).pc == Done
  }

  /** Nobody truncates, removes or replaces the output file. */
  ghost predicate GrowOnly(run: seq<State>) {
    forall i :: 0 <= i < |run| - 1 ==> Grows(run[i], run[i + 1])
  }

  ghost predicate Grows(s: State, s': State) {
    s.world.file.Some? && s'.world.file.Some? && s.world.file.value <= s'.world.file.value
  }

  lemma ExtendRun(c: Params, run: seq<State>, s: State)
    requires IsRun(c, run) && Next(c, Last(run), s)
    ensures IsRun(c, run + [s])
  {
    var run' := run + [s];
    forall i | 0 <= i < |run'| - 1 ensures Next(c, run'[i], run'[i + 1]) {
      if i == |run| - 1 { assert run'[i] == Last(run); }
    }
  }

  lemma Act(c: Params, run: seq<State>) returns (run': seq<State>)
    requires IsRun(c, run) && Enabled(Last(run))
    ensures run <= run' && IsRun(c, run') && Last(run') == Prog(c, Last(run))
  {
    ExtendRun(c, run, Prog(c, Last(run)));
    run' := run + [Prog(c, Last(run))];
  }

  lemma Wait(c: Params, run: seq<State>, w: World) returns (run': seq<State>)
    requires IsRun(c, run) && WorldMoves(Last(run).world, w)
    ensures run <= run' && IsRun(c, run') && Last(run') == Last(run).(world := w)
  {
    ExtendRun(c, run, Last(run).(world := w));
    run' := run + [Last(run).(world := w)];
  }

  lemma WatcherActs(c: Params, run: seq<State>) returns (run': seq<State>)
    requires IsRun(c, run) && WatchEnabled(Last(run))
    ensures run <= run' && IsRun(c, run') && Last(run') == Watch(c, Last(run))
  {
    ExtendRun(c, run, Watch(c, Last(run)));
    run' := run + [Watch(c, Last(run))];
  }

  // ----- how many 2 ms rounds are left before the deadline

  function RoundsLeft(c: Params, t: real): nat {
    if c.Deadline() <= t then 0 else ((c.Deadline() - t) / POLL).Floor + 1
  }

  lemma RoundsShrink(c: Params, t: real, t': real)
    requires t <= t'
    ensures RoundsLeft(c, t') <= RoundsLeft(c, t)
    ensures t < c.Deadline() && t + POLL <= t' ==> RoundsLeft(c, t') + 1 <= RoundsLeft(c, t)
  {
    var left, left' := (c.Deadline() - t) / POLL, (c.Deadline() - t') / POLL;
    assert left' <= left;
    if t + POLL <= t' { assert left' + 1.0 <= left; }
  }

  function RoundBound(c: Params): nat { RoundsLeft(c, c.launched) + 1 }

  ghost predicate RoundsInv(c: Params, s: State) {
    && s.hist.iterations <= RoundBound(c)
    && match s.pc
       case PollChild => s.hist.iterations + RoundsLeft(c, s.world.clock) < RoundBound(c)
       case SampleNow => s.hist.iterations + RoundsLeft(c, s.world.clock) < RoundBound(c)
       case TestWatcher => s.hist.iterations + RoundsLeft(c, s.vars.now) <= RoundBound(c)
       case TestDeadline => s.hist.iterations + RoundsLeft(c, s.vars.now) <= RoundBound(c)
       case Sleeping =>
         && s.vars.now < c.Deadline() && s.vars.now + POLL <= s.vars.wake
         && s.hist.iterations + RoundsLeft(c, s.vars.now) <= RoundBound(c)
       case _ => true
  }

  // ----- safety

  ghost predicate Looping(pc: Pc) {
    pc.PollChild? || pc.SampleNow? || pc.TestWatcher? || pc.TestDeadline? || pc.Sleeping?
  }

  ghost predicate BookKept(s: State) {
    && s.vars.status == (if s.world.child.Reaped? then Some(s.world.child.status) else None)
    && s.vars.usage == (if s.world.child.Reaped? then Some(s.world.child.usage) else None)
    && s.hist.reaps == (if s.world.child.Reaped? then 1 else 0)
    && (Looping(s.pc) || s.pc.AwaitChild? <==> !s.world.child.Reaped?)
    && (s.vars.wall.Some? <==> s.world.child.Reaped? && !s.pc.StampWall?)
  }

  /** Kills are explained by flags. */
  ghost predicate Blame(c: Params, s: State) {
    && (s.world.child.killed ==> s.hist.sentKill)
    && (s.hist.sentKill ==> s.vars.timedOut || s.vars.exceeded)
    && (s.pc.AwaitChild? ==> s.hist.sentKill)
    && (Looping(s.pc) ==> !s.hist.sentKill && !s.vars.timedOut && !s.vars.exceeded)
    && (s.vars.timedOut ==> c.Deadline() <= s.vars.now)
    && (s.vars.timedOut && s.vars.wall.Some? ==> c.hardKill <= s.vars.wall.value)
    && (s.vars.timedOut && s.world.child.killed && !s.world.child.Running? ==> c.Deadline() <= s.world.child.at)
  }

  /** The child ended after the last poll that missed it, and is not measured short. */
  ghost predicate Seen(c: Params, s: State) {
    && c.launched <= s.hist.poll <= s.world.clock && s.hist.entered <= s.world.clock
    && (!s.world.child.Running? ==> s.hist.poll <= s.world.child.at <= s.world.clock)
    && (s.vars.wall.Some? && s.world.child.Reaped? ==> s.world.child.at - c.started <= s.vars.wall.value)
    && (s.pc.TestWatcher? || s.pc.TestDeadline? || s.pc.Sleeping? || s.vars.timedOut ==> s.vars.now <= s.world.clock)
  }

  /** No member of the group survives the last kill; the flag reports the final check, which
      is final when no stray writer was left. */
  ghost predicate Checked(c: Params, s: State) {
    && (s.pc.FinalCheck? || s.pc.Done? ==> !s.world.kin)
    && (s.pc.Done? ==>
          && (Over(c.outputLimit, s.hist.checked) ==> s.vars.exceeded)
          && (s.hist.quiet ==> !s.world.stray && s.world.file == s.hist.checked))
  }

  ghost predicate Inv(c: Params, s: State) {
    BookKept(s) && Blame(c, s) && Seen(c, s) && Checked(c, s) && RoundsInv(c, s)
  }

  /** As long as the file only grows, no actor claims an excess that is not there. */
  ghost predicate Honest(c: Params, s: State) {
    && (s.watcher.phase == Returning(true) || s.watcher.result == Some(true) || s.vars.exceeded ==>
          Over(c.outputLimit, s.world.file))
    && (s.pc.Done? ==> (s.vars.exceeded <==> Over(c.outputLimit, s.hist.checked)))
  }

  lemma ElapseKeepsInv(c: Params, s: State, s': State)
    requires c.Valid() && Inv(c, s) && Elapse(s, s')
    ensures Inv(c, s')
  {
    RoundsShrink(c, s.world.clock, s'.world.clock);
  }

  lemma ProgKeepsRounds(c: Params, s: State)
    requires RoundsInv(c, s) && Seen(c, s) && Enabled(s)
    ensures RoundsInv(c, Prog(c, s))
  {
    if s.pc.Sleeping? {
      RoundsShrink(c, s.vars.now, s.world.clock);
    }
  }

  lemma ProgKeepsBooks(c: Params, s: State)
    requires BookKept(s) && Enabled(s)
    ensures BookKept(Prog(c, s))
  {
  }

  lemma ProgKeepsBlame(c: Params, s: State)
    requires BookKept(s) && Blame(c, s) && Seen(c, s) && Enabled(s)
    ensures Blame(c, Prog(c, s))
  {
  }

  lemma ProgKeepsSeen(c: Params, s: State)
    requires BookKept(s) && Seen(c, s) && Blame(c, s) && Enabled(s)
    ensures Seen(c, Prog(c, s))
  {
  }

  lemma ProgKeepsChecked(c: Params, s: State)
    requires BookKept(s) && Checked(c, s) && Enabled(s)
    ensures Checked(c, Prog(c, s))
  {
  }

  lemma ProgKeepsInv(c: Params, s: State)
    requires Inv(c, s) && Enabled(s)
    ensures Inv(c, Prog(c, s))
  {
    ProgKeepsBooks(c, s);
    ProgKeepsBlame(c, s);
    ProgKeepsSeen(c, s);
    ProgKeepsChecked(c, s);
    ProgKeepsRounds(c, s);
  }

  lemma WatchKeepsInv(c: Params, s: State)
    requires Inv(c, s) && WatchEnabled(s)
    ensures Inv(c, Watch(c, s))
  {
  }

  /** The invariant holds at every point of every interleaving of the three actors. */
  lemma {:induction false} RunInv(c: Params, run: seq<State>)
    requires c.Valid() && IsRun(c, run)
    ensures forall i :: 0 <= i < |run| ==> Inv(c, run[i])
  {
    for i := 1 to |run|
      invariant forall j :: 0 <= j < i ==> Inv(c, run[j])
    {
      var s := run[i - 1];
      assert Next(c, s, run[i - 1 + 1]);
      if Elapse(s, run[i]) {
        ElapseKeepsInv(c, s, run[i]);
      } else if Enabled(s) && run[i] == Prog(c, s) {
        ProgKeepsInv(c, s);
      } else {
        WatchKeepsInv(c, s);
      }
    }
  }

  lemma ProgKeepsHonest(c: Params, s: State)
    requires BookKept(s) && Honest(c, s) && Enabled(s)
    ensures Honest(c, Prog(c, s))
  {
  }

  lemma WatchKeepsHonest(c: Params, s: State)
    requires Honest(c, s) && WatchEnabled(s)
    ensures Honest(c, Watch(c, s))
  {
  }

  lemma ElapseKeepsHonest(c: Params, s: State, s': State)
    requires Honest(c, s) && Elapse(s, s') && Grows(s, s')
    ensures Honest(c, s')
  {
  }

  lemma {:induction false} GrowOnlyHonest(c: Params, run: seq<State>)
    requires c.Valid() && IsRun(c, run) && GrowOnly(run)
    ensures forall i :: 0 <= i < |run| ==> Honest(c, run[i])
  {
    RunInv(c, run);
    for i := 1 to |run|
      invariant forall j :: 0 <= j < i ==> Honest(c, run[j])
    {
      var s := run[i - 1];
      assert Next(c, s, run[i - 1 + 1]) && Grows(s, run[i - 1 + 1]) && Inv(c, s);
      if Elapse(s, run[i]) {
        ElapseKeepsHonest(c, s, run[i]);
      } else if Enabled(s) && run[i] == Prog(c, s) {
        ProgKeepsHonest(c, s);
      } else {
        WatchKeepsHonest(c, s);
      }
    }
  }

  /** What the supervisor knows is right at the end of any run so far. */
  lemma RunBooks(c: Params, run: seq<State>)
    requires c.Valid() && IsRun(c, run)
    ensures BookKept(Last(run))
  {
    RunInv(c, run);
  }

  /** The loop counter stays below its bound on any run so far. */
  lemma RunRounds(c: Params, run: seq<State>)
    requires c.Valid() && IsRun(c, run)
    ensures Last(run).hist.iterations <= RoundBound(c)
    ensures c.launched < c.Deadline() ==>
              Last(run).hist.iterations as real <= (c.Deadline() - c.launched) / 0.002 + 2.0
  {
    RunInv(c, run);
  }
}
