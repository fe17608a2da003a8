/**
 How accurately the batch supervisor measures, and how long it takes, on a host whose
 main thread is served promptly: every call returns within `delay` seconds (a sleep
 within `delay` of its wake-up, the join within `delay` of its timeout) and the wait
 for a killed child within `reap` seconds.
 */
module BatchTiming {
  import opened Processes
  import opened BatchMachine

  function Allowance(h: Host, pc: Pc): real {
    match pc
    case AwaitChild => h.reap
    case Sleeping => POLL + h.delay
    case JoinWatcher => JOIN + h.delay
    case _ => h.delay
  }

  ghost predicate PromptAt(h: Host, s: State) {
    s.world.clock - s.hist.entered <= Allowance(h, s.pc)
  }

  ghost predicate Prompt(h: Host, run: seq<State>) {
    forall i :: 0 <= i < |run| ==> PromptAt(h, run[i])
  }

  /** Time between the last poll that found the child running and the issue of the
      call at `pc`, while the child is unreaped. */
  function SincePoll(h: Host, pc: Pc): real {
    match pc
    case SampleNow => 0.0
    case TestWatcher => h.delay
    case TestDeadline => 2.0 * h.delay
    case Sleeping => 3.0 * h.delay
    case AwaitChild => 3.0 * h.delay
    case _ => 4.0 * h.delay + POLL
  }

  /** The longest a measured wall can exceed the time at which the child ended. */
  function MeasuringError(h: Host, sentKill: bool): real {
    if sentKill then 4.0 * h.delay + h.reap else 6.0 * h.delay + POLL
  }

  ghost predicate PollIsRecent(c: Params, h: Host, s: State) {
    && (!s.world.child.Reaped? ==> s.hist.entered <= s.hist.poll + SincePoll(h, s.pc))
    && (s.pc.StampWall? && s.world.child.Reaped? ==>
          s.hist.entered <= s.world.child.at + MeasuringError(h, s.hist.sentKill) - h.delay)
    && (s.vars.wall.Some? && s.world.child.Reaped? ==>
          s.vars.wall.value <= s.world.child.at - c.started + MeasuringError(h, s.hist.sentKill))
    && (s.vars.timedOut || s.pc.TestWatcher? || s.pc.TestDeadline? ==> s.vars.now <= s.hist.poll + h.delay)
  }

  function Horizon(c: Params): real {
    if c.launched <= c.Deadline() then c.Deadline() else c.launched
  }

  ghost predicate OnTime(c: Params, h: Host, s: State) {
    var start := Horizon(c) + POLL + 3.0 * h.delay;
    match s.pc
    case PollChild => s.hist.entered <= start
    case SampleNow => s.hist.entered <= start + h.delay
    case TestWatcher => s.vars.now <= start + 2.0 * h.delay && s.hist.entered <= s.vars.now
    case TestDeadline => s.vars.now <= start + 2.0 * h.delay && s.hist.entered <= s.vars.now + h.delay
    case Sleeping => s.hist.entered <= s.vars.now + 2.0 * h.delay && s.vars.now < c.Deadline()
    case AwaitChild => s.hist.entered <= start + 4.0 * h.delay
    case StampWall => s.hist.entered <= start + 4.0 * h.delay + h.reap
    case SetStop => s.hist.entered <= start + 5.0 * h.delay + h.reap
    case JoinWatcher => s.hist.entered <= start + 6.0 * h.delay + h.reap
    case KillLeft => s.hist.entered <= start + 7.0 * h.delay + h.reap + JOIN
    case FinalCheck => s.hist.entered <= start + 8.0 * h.delay + h.reap + JOIN
    case Done => s.hist.entered <= start + 9.0 * h.delay + h.reap + JOIN
  }

  /** A child that has been collected did not outlive its deadline for long. */
  ghost predicate NoOverrun(c: Params, h: Host, s: State) {
    s.world.child.Reaped? ==> s.world.child.at <= Horizon(c) + POLL + 7.0 * h.delay + h.reap
  }

  ghost predicate Timed(c: Params, h: Host, s: State) {
    PollIsRecent(c, h, s) && OnTime(c, h, s) && NoOverrun(c, h, s)
  }

  lemma ProgKeepsNoOverrun(c: Params, h: Host, s: State)
    requires h.Valid() && BookKept(s) && Seen(c, s) && Enabled(s)
    requires OnTime(c, h, s) && NoOverrun(c, h, s) && PromptAt(h, s)
    ensures NoOverrun(c, h, Prog(c, s))
  {
  }

  lemma ProgKeepsPollRecent(c: Params, h: Host, s: State)
    requires h.Valid() && BookKept(s) && Blame(c, s) && Seen(c, s) && Enabled(s)
    requires PollIsRecent(c, h, s) && PromptAt(h, s)
    ensures PollIsRecent(c, h, Prog(c, s))
  {
  }

  lemma ProgKeepsOnTime(c: Params, h: Host, s: State)
    requires h.Valid() && Enabled(s) && OnTime(c, h, s) && PromptAt(h, s)
    ensures OnTime(c, h, Prog(c, s))
  {
  }

  lemma ElapseKeepsTimed(c: Params, h: Host, s: State, s': State)
    requires Timed(c, h, s) && Elapse(s, s')
    ensures Timed(c, h, s')
  {
  }

  lemma NextKeepsTimed(c: Params, h: Host, s: State, s': State)
    requires h.Valid() && Inv(c, s) && Timed(c, h, s) && PromptAt(h, s) && Next(c, s, s')
    ensures Timed(c, h, s')
  {
    if Elapse(s, s') {
      ElapseKeepsTimed(c, h, s, s');
    } else if Enabled(s) && s' == Prog(c, s) {
      ProgKeepsPollRecent(c, h, s);
      ProgKeepsOnTime(c, h, s);
      ProgKeepsNoOverrun(c, h, s);
    }
  }

  lemma {:induction false} RunTimed(c: Params, h: Host, run: seq<State>)
    requires c.Valid() && h.Valid() && IsRun(c, run) && Prompt(h, run)
    ensures forall i :: 0 <= i < |run| ==> Timed(c, h, run[i])
  {
    RunInv(c, run);
    for i := 1 to |run|
      invariant forall j :: 0 <= j < i ==> Timed(c, h, run[j])
    {
      assert Next(c, run[i - 1], run[i - 1 + 1]);
      NextKeepsTimed(c, h, run[i - 1], run[i]);
    }
  }

  /** The measured wall covers the child's own running time (on any host), and on a prompt
      host exceeds it by at most the launch time plus one polling period. */
  lemma WallBracketsRunningTime(c: Params, h: Host, run: seq<State>)
    requires c.Valid() && h.Valid() && Finished(c, run)
    ensures var s := Last(run);
            && s.vars.wall.Some? && s.world.child.Reaped?
            && s.world.child.at - c.launched <= s.world.child.at - c.started <= s.vars.wall.value
            && (Prompt(h, run) ==>
                  s.vars.wall.value
                  <= (s.world.child.at - c.launched) + (c.launched - c.started) + MeasuringError(h, s.hist.sentKill))
  {
    RunInv(c, run);
    if Prompt(h, run) {
      RunTimed(c, h, run);
    }
  }

  /** A finished run ends soon after the hard-kill deadline, whatever the watcher does. */
  lemma RunEndsOnTime(c: Params, h: Host, run: seq<State>)
    requires c.Valid() && h.Valid() && Finished(c, run) && Prompt(h, run)
    ensures Last(run).hist.entered <= Horizon(c) + POLL + JOIN + 12.0 * h.delay + h.reap
  {
    RunTimed(c, h, run);
  }
}
