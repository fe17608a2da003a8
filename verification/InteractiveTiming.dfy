/**
 How accurately the interactive supervisor measures, and how long it takes,
 on a host that answers promptly: every system call returns within `delay`
 seconds (a sleep within `delay` of its wake-up time) and a wait for a killed
 child within `reap` seconds.
 */
module InteractiveTiming {
  import opened Processes
  import opened InteractiveMachine

  function Allowance(h: Host, pc: Pc): real {
    match pc
    case AwaitSolution => h.reap
    case PairAwaitSolution => h.reap
    case AwaitValidator => h.reap
    case LateAwait => h.reap
    case Sleeping => POLL + h.delay
    case _ => h.delay
  }

  ghost predicate PromptAt(h: Host, s: State) {
    s.world.clock - s.hist.entered <= Allowance(h, s.pc)
  }

  ghost predicate Prompt(h: Host, run: seq<State>) {
    forall i :: 0 <= i < |run| ==> PromptAt(h, run[i])
  }

  /** Time between the last poll that found the solution running and the issue of
      the system call at `pc`, while the solution is still unreaped. */
  function SincePoll(h: Host, pc: Pc): real {
    match pc
    case PollValidator => 0.0
    case TestHardKill => h.delay
    case TestPair => 2.0 * h.delay
    case AwaitSolution => 2.0 * h.delay
    case Sleeping => 3.0 * h.delay
    case LoopTest => 4.0 * h.delay + POLL
    case SampleNow => 5.0 * h.delay + POLL
    case _ => 6.0 * h.delay + POLL
  }

  /** The last poll that found the solution running is recent. */
  ghost predicate PollIsRecent(c: Params, h: Host, s: State) {
    && (!s.world.sol.Reaped? ==> s.hist.entered <= s.hist.solPoll + SincePoll(h, s.pc))
    && (s.pc.StampPolled? && s.world.sol.Reaped? ==> s.hist.entered <= s.world.sol.at + 7.0 * h.delay + POLL)
    && (s.pc.StampKilled? && s.world.sol.Reaped? ==> s.hist.entered <= s.world.sol.at + 2.0 * h.delay + h.reap)
  }

  /** The longest a measured wall can exceed the time at which the solution ended. */
  function MeasuringError(h: Host, timedOut: bool): real {
    if timedOut then 3.0 * h.delay + h.reap else 8.0 * h.delay + POLL
  }

  ghost predicate WallIsAccurate(c: Params, h: Host, s: State) {
    s.vars.wall.Some? && s.world.sol.Reaped? ==>
      s.vars.wall.value <= s.world.sol.at - c.started + MeasuringError(h, s.vars.solTimedOut)
  }

  // ----- the validator

  /** Like `SincePoll`, for the poll of the validator. */
  function SinceValidatorPoll(h: Host, pc: Pc): real {
    match pc
    case TestHardKill => 0.0
    case TestPair => h.delay
    case Sleeping => 2.0 * h.delay
    case LoopTest => 3.0 * h.delay + POLL
    case _ => 4.0 * h.delay + POLL
  }

  ghost predicate SeenRecently(h: Host, s: State) {
    s.hist.valPoll.Some? && s.hist.entered <= s.hist.valPoll.value + SinceValidatorPoll(h, s.pc)
  }

  /** The validator was found running at most one round before `now`. */
  ghost predicate SeenBeforeNow(h: Host, s: State) {
    s.hist.valPoll.Some? && s.vars.now <= s.hist.valPoll.value + 5.0 * h.delay + POLL
  }

  /** A solution that ended by itself was collected in this round, or the validator was
      found running in the round before. */
  ghost predicate ValidatorSeen(c: Params, h: Host, s: State) {
    s.world.sol.Reaped? && !s.vars.solTimedOut ==>
      match s.pc
      case LoopTest => s.world.val.Reaped? || SeenRecently(h, s)
      case SampleNow => !s.world.val.Reaped? && SeenRecently(h, s)
      case PollSolution => !s.world.val.Reaped? && SeenBeforeNow(h, s)
      case StampPolled => true
      case PollValidator => CollectedNow(c, s) || SeenBeforeNow(h, s)
      case TestHardKill => (CollectedNow(c, s) || SeenBeforeNow(h, s)) && (s.world.val.Reaped? || SeenRecently(h, s))
      case TestPair => (CollectedNow(c, s) || SeenBeforeNow(h, s)) && (s.world.val.Reaped? || SeenRecently(h, s))
      case Sleeping => s.world.val.Reaped? || SeenRecently(h, s)
      case _ => s.vars.pairTimedOut ==> CollectedNow(c, s) || SeenBeforeNow(h, s)
  }

  ghost predicate CollectedNow(c: Params, s: State) {
    s.vars.wall.Some? && s.vars.now - c.started <= s.vars.wall.value
  }

  lemma ProgKeepsValidatorSeen(c: Params, h: Host, s: State)
    requires c.Valid() && h.Valid() && BookKept(s) && Blame(c, s) && Seen(c, s) && Control(c, s) && Enabled(s)
    requires ValidatorSeen(c, h, s) && PromptAt(h, s)
    ensures ValidatorSeen(c, h, Prog(c, s))
  {
  }

  /** A validator that was collected before the pair deadline was enforced ended by then. */
  ghost predicate ValidatorInTime(c: Params, h: Host, s: State) {
    s.world.val.Reaped? && !s.vars.pairTimedOut && !s.vars.solTimedOut ==>
      || s.world.val.at <= c.PairDeadline() + 3.0 * h.delay
      || ((s.pc.TestHardKill? || s.pc.TestPair?) && s.world.val.at <= s.vars.now + 3.0 * h.delay)
  }

  lemma ProgKeepsValidatorInTime(c: Params, h: Host, s: State)
    requires c.Valid() && h.Valid() && BookKept(s) && Blame(c, s) && Control(c, s) && Enabled(s)
    requires ValidatorInTime(c, h, s) && OnTime(c, h, s) && PromptAt(h, s)
    ensures ValidatorInTime(c, h, Prog(c, s))
  {
  }

  // ----- total time

  /** Time since `launched` or the pair deadline, whichever is later, by which a round starts. */
  function RoundStart(h: Host, s: State): real {
    POLL + 6.0 * h.delay + if s.world.sol.Reaped? then 7.0 * h.delay + h.reap else 0.0
  }

  function Horizon(c: Params): real {
    if c.launched <= c.PairDeadline() then c.PairDeadline() else c.launched
  }

  ghost predicate OnTime(c: Params, h: Host, s: State) {
    var start := Horizon(c) + RoundStart(h, s);
    match s.pc
    case LoopTest => s.hist.entered <= start
    case SampleNow => s.hist.entered <= start + h.delay
    case PollSolution => s.vars.now <= start + 2.0 * h.delay && s.hist.entered <= s.vars.now
    case StampPolled => s.vars.now <= start + 2.0 * h.delay && s.hist.entered <= s.vars.now + h.delay
    case PollValidator => s.vars.now <= start + 2.0 * h.delay && s.hist.entered <= s.vars.now + 2.0 * h.delay
    case TestHardKill => s.vars.now <= start + 2.0 * h.delay && s.hist.entered <= s.vars.now + 3.0 * h.delay
    case AwaitSolution => s.vars.now <= start + 2.0 * h.delay && s.hist.entered <= s.vars.now + 4.0 * h.delay
    case StampKilled => s.hist.entered <= start - h.delay
    case TestPair => s.vars.now <= start + 2.0 * h.delay && s.hist.entered <= s.vars.now + 4.0 * h.delay
    case Sleeping => s.hist.entered <= s.vars.now + 5.0 * h.delay && s.vars.now < c.PairDeadline()
    case PairValidator => s.hist.entered <= start + 7.0 * h.delay
    case AwaitValidator => s.hist.entered <= start + 8.0 * h.delay
    case Sweep => s.hist.entered <= start + 8.0 * h.delay + h.reap
    case Done => s.hist.entered <= start + 9.0 * h.delay + h.reap
    case _ => true
  }

  /** When the solution is due: its deadline, or its launch if that came later. */
  function Due(c: Params): real {
    if c.launched <= c.Deadline() then c.Deadline() else c.launched
  }

  /** While the solution is left, the rounds keep to its deadline; once collected, it did not
      outlive it for long. */
  ghost predicate NoOverrun(c: Params, h: Host, s: State) {
    if s.world.sol.Reaped? then s.world.sol.at <= Due(c) + POLL + 11.0 * h.delay + h.reap
    else
      match s.pc
      case LoopTest => s.hist.entered <= Due(c) + POLL + 6.0 * h.delay
      case SampleNow => s.hist.entered <= Due(c) + POLL + 7.0 * h.delay
      case PollSolution => s.hist.entered <= Due(c) + POLL + 8.0 * h.delay
      case PollValidator => s.hist.entered <= Due(c) + POLL + 9.0 * h.delay
      case TestHardKill => s.hist.entered <= Due(c) + POLL + 10.0 * h.delay
      case AwaitSolution => s.hist.entered <= Due(c) + POLL + 11.0 * h.delay
      case Sleeping => s.hist.entered <= Due(c) + 5.0 * h.delay
      case _ => true
  }

  lemma ProgKeepsNoOverrun(c: Params, h: Host, s: State)
    requires c.Valid() && h.Valid() && BookKept(s) && Blame(c, s) && Control(c, s) && Enabled(s)
    requires OnTime(c, h, s) && NoOverrun(c, h, s) && PromptAt(h, s)
    ensures NoOverrun(c, h, Prog(c, s))
  {
  }

  ghost predicate Timed(c: Params, h: Host, s: State) {
    && PollIsRecent(c, h, s) && WallIsAccurate(c, h, s)
    && ValidatorSeen(c, h, s) && ValidatorInTime(c, h, s) && OnTime(c, h, s) && NoOverrun(c, h, s)
  }

  lemma ProgKeepsPollRecent(c: Params, h: Host, s: State)
    requires c.Valid() && h.Valid() && BookKept(s) && Blame(c, s) && Seen(c, s) && Control(c, s) && Enabled(s)
    requires PollIsRecent(c, h, s) && PromptAt(h, s)
    ensures PollIsRecent(c, h, Prog(c, s))
  {
  }

  lemma ProgKeepsWallAccurate(c: Params, h: Host, s: State)
    requires c.Valid() && h.Valid() && BookKept(s) && Blame(c, s) && Seen(c, s) && Control(c, s) && Enabled(s)
    requires PollIsRecent(c, h, s) && WallIsAccurate(c, h, s) && PromptAt(h, s)
    ensures WallIsAccurate(c, h, Prog(c, s))
  {
  }

  lemma PollingKeepsOnTime(c: Params, h: Host, s: State)
    requires c.Valid() && h.Valid() && BookKept(s) && Control(c, s) && Enabled(s)
    requires OnTime(c, h, s) && PromptAt(h, s)
    requires s.pc.LoopTest? || s.pc.SampleNow? || s.pc.PollSolution? || s.pc.StampPolled? || s.pc.PollValidator?
    ensures OnTime(c, h, Prog(c, s))
  {
  }

  lemma HardKillKeepsOnTime(c: Params, h: Host, s: State)
    requires c.Valid() && h.Valid() && BookKept(s) && Control(c, s) && Enabled(s)
    requires OnTime(c, h, s) && PromptAt(h, s)
    requires s.pc.TestHardKill? || s.pc.AwaitSolution? || s.pc.StampKilled?
    ensures OnTime(c, h, Prog(c, s))
  {
  }

  lemma PairKeepsOnTime(c: Params, h: Host, s: State)
    requires c.Valid() && h.Valid() && BookKept(s) && Control(c, s) && Enabled(s)
    requires OnTime(c, h, s) && PromptAt(h, s)
    requires s.pc.TestPair? || s.pc.Sleeping? || s.pc.PairValidator?
    ensures OnTime(c, h, Prog(c, s))
  {
  }

  lemma EndingKeepsOnTime(c: Params, h: Host, s: State)
    requires c.Valid() && h.Valid() && BookKept(s) && Control(c, s) && Enabled(s)
    requires OnTime(c, h, s) && PromptAt(h, s)
    requires s.pc.AwaitValidator? || s.pc.Sweep?
    ensures OnTime(c, h, Prog(c, s))
  {
  }

  lemma ProgKeepsOnTime(c: Params, h: Host, s: State)
    requires c.Valid() && h.Valid() && BookKept(s) && Control(c, s) && Enabled(s)
    requires OnTime(c, h, s) && PromptAt(h, s)
    ensures OnTime(c, h, Prog(c, s))
  {
    match s.pc
    case TestHardKill => HardKillKeepsOnTime(c, h, s);
    case AwaitSolution => HardKillKeepsOnTime(c, h, s);
    case StampKilled => HardKillKeepsOnTime(c, h, s);
    case TestPair => PairKeepsOnTime(c, h, s);
    case Sleeping => PairKeepsOnTime(c, h, s);
    case PairValidator => PairKeepsOnTime(c, h, s);
    case AwaitValidator => EndingKeepsOnTime(c, h, s);
    case Sweep => EndingKeepsOnTime(c, h, s);
    case _ => PollingKeepsOnTime(c, h, s);
  }

  lemma ElapseKeepsWalls(c: Params, h: Host, s: State, s': State)
    requires h.Valid() && BookKept(s) && Timed(c, h, s) && Elapse(s, s')
    ensures PollIsRecent(c, h, s') && WallIsAccurate(c, h, s') && NoOverrun(c, h, s')
  {
    hide ValidatorSeen, ValidatorInTime, OnTime;
  }

  lemma ElapseKeepsTimed(c: Params, h: Host, s: State, s': State)
    requires h.Valid() && BookKept(s) && Timed(c, h, s) && Elapse(s, s')
    ensures Timed(c, h, s')
  {
    ElapseKeepsWalls(c, h, s, s');
    hide PollIsRecent, WallIsAccurate, NoOverrun;
  }

  lemma NextKeepsTimed(c: Params, h: Host, s: State, s': State)
    requires c.Valid() && h.Valid() && Inv(c, s) && Timed(c, h, s) && PromptAt(h, s) && Next(c, s, s')
    ensures Timed(c, h, s')
  {
    if Elapse(s, s') {
      ElapseKeepsTimed(c, h, s, s');
    } else {
      ProgKeepsPollRecent(c, h, s);
      ProgKeepsWallAccurate(c, h, s);
      ProgKeepsValidatorSeen(c, h, s);
      ProgKeepsValidatorInTime(c, h, s);
      ProgKeepsNoOverrun(c, h, s);
      ProgKeepsOnTime(c, h, s);
    }
  }

  lemma InitTimed(c: Params, h: Host, s: State)
    requires h.Valid() && Init(c, s)
    ensures Timed(c, h, s)
  {
  }

  lemma {:induction false} RunTimed(c: Params, h: Host, run: seq<State>)
    requires c.Valid() && h.Valid() && IsRun(c, run) && Prompt(h, run)
    ensures forall i :: 0 <= i < |run| ==> Timed(c, h, run[i])
  {
    RunInv(c, run);
    InitTimed(c, h, run[0]);
    for i := 1 to |run|
      invariant forall j :: 0 <= j < i ==> Timed(c, h, run[j])
    {
      assert Next(c, run[i - 1], run[i - 1 + 1]);
      NextKeepsTimed(c, h, run[i - 1], run[i]);
    }
  }

  /** The measured wall covers the solution's own running time (on any host), and on a
      prompt host exceeds it by at most the launch time plus one polling period. */
  lemma WallBracketsRunningTime(c: Params, h: Host, run: seq<State>)
    requires c.Valid() && h.Valid() && Finished(c, run)
    ensures var s := Last(run);
            && s.vars.wall.Some? && s.world.sol.Reaped?
            && s.world.sol.at - c.launched <= s.world.sol.at - c.started <= s.vars.wall.value
            && (Prompt(h, run) ==>
                  s.vars.wall.value
                  <= (s.world.sol.at - c.launched) + (c.launched - c.started) + MeasuringError(h, s.vars.solTimedOut))
  {
    RunInv(c, run);
    if Prompt(h, run) {
      RunTimed(c, h, run);
    }
  }

  /** A finished run ends soon after the pair deadline. */
  lemma RunEndsOnTime(c: Params, h: Host, run: seq<State>)
    requires c.Valid() && h.Valid() && Finished(c, run) && Prompt(h, run)
    ensures Last(run).hist.entered <= Horizon(c) + POLL + 22.0 * h.delay + 2.0 * h.reap
  {
    RunInv(c, run);
    RunTimed(c, h, run);
  }
}
