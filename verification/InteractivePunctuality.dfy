/**
 How early a validator can have ended and still be blamed for slowness.  The pair deadline
 is tested even in the round that collected the last child, so a validator that answered
 in time, and was never killed, can be reported as too slow; here is exactly when.
 */
module InteractivePunctuality {
  import opened Options
  import opened Processes
  import opened Rounding
  import opened TimeLimits
  import opened InteractiveMachine
  import opened InteractiveTiming
  import opened InteractiveBlame

  /** The validator is blamed although it exited with 42 by itself, `early` seconds before
      the pair deadline. */
  ghost predicate BlamedThoughEarly(j: Judged, early: real)
    requires j.Valid()
  {
    var val := j.End().world.val;
    && j.Verdict().JudgeError? && j.Outcome().1.ValidatorTooSlow?
    && val.Reaped? && !val.killed && val.status == Exited(42) && val.at == j.Params().PairDeadline() - early
  }

  // ----- a blamed validator was once seen running

  lemma {:induction false} ClockOnlyGrows(c: Params, run: seq<State>, i: nat, k: nat)
    requires IsRun(c, run) && i <= k < |run|
    ensures run[i].world.clock <= run[k].world.clock
    decreases k
  {
    if i < k {
      ClockOnlyGrows(c, run, i, k - 1);
      assert Next(c, run[k - 1], run[k - 1 + 1]);
    }
  }

  /** Every run is prompt on some host. */
  lemma SomeHostIsPrompt(c: Params, run: seq<State>) returns (h: Host)
    requires c.Valid() && IsRun(c, run)
    ensures h.Valid() && Prompt(h, run)
  {
    RunInv(c, run);
    var whole := Last(run).world.clock - c.launched;
    h := Host(whole, whole);
    forall i | 0 <= i < |run| ensures PromptAt(h, run[i]) {
      ClockOnlyGrows(c, run, i, |run| - 1);
      assert Inv(c, run[i]);
    }
  }

  lemma BlamedAfterLaunch(j: Judged, early: real)
    requires j.Valid() && BlamedThoughEarly(j, early)
    ensures early <= Milli(j.limits.hardKill + 5.0)
  {
    FinishedHasRecord(j);
    var h := SomeHostIsPrompt(j.Params(), j.run);
    RunTimed(j.Params(), h, j.run);
    RoundingError(j.End().vars.wall.value);
    RoundingError(j.limits.hardKill + 5.0);
  }

  // ----- runs that blame it

  ghost predicate PromptRun(c: Params, h: Host, run: seq<State>) { h.Valid() && IsRun(c, run) && Prompt(h, run) }

  lemma Step(c: Params, h: Host, run: seq<State>) returns (run': seq<State>)
    requires PromptRun(c, h, run) && Enabled(Last(run))
    ensures PromptRun(c, h, run') && Last(run') == Prog(c, Last(run))
  {
    ExtendRun(c, run, Prog(c, Last(run)));
    run' := run + [Prog(c, Last(run))];
  }

  lemma Pass(c: Params, h: Host, run: seq<State>, w: World) returns (run': seq<State>)
    requires PromptRun(c, h, run) && WorldMoves(Last(run).world, w) && PromptAt(h, Last(run).(world := w))
    ensures PromptRun(c, h, run') && Last(run') == Last(run).(world := w)
  {
    ExtendRun(c, run, Last(run).(world := w));
    run' := run + [Last(run).(world := w)];
  }

  const NOTHING := Usage(0.0, 0)

  /** The solution as collected by the first poll. */
  function EndedAtOnce(c: Params): Process { Reaped(Exited(0), NOTHING, c.launched, false) }

  /** The validator was polled at `t`, in a round that sampled the clock at `t`, and found
      running; the solution was collected at once. */
  ghost predicate Polled(c: Params, s: State, t: real) {
    && s.pc == TestHardKill && s.world == World(t, EndedAtOnce(c), Running(false), false, false)
    && s.vars.now == t && s.hist.entered == t
    && s.vars.solStatus.Some? && s.vars.valStatus.None? && s.vars.wall == Some(c.launched - c.started)
    && !s.vars.solTimedOut && !s.vars.pairTimedOut
  }

  lemma FirstPoll(c: Params, h: Host) returns (run: seq<State>)
    requires h.Valid()
    ensures PromptRun(c, h, run) && Polled(c, Last(run), c.launched)
  {
    run := [Begin(c)];
    run := Step(c, h, run);
    run := Pass(c, h, run, Last(run).world.(sol := Zombie(Exited(0), NOTHING, c.launched, false)));
    run := Step(c, h, run);
    run := Step(c, h, run);
    run := Step(c, h, run);
    run := Step(c, h, run);
  }

  /** One round in which nothing happens and no call takes any time. */
  lemma QuietRound(c: Params, h: Host, before: seq<State>, t: real) returns (run: seq<State>)
    requires PromptRun(c, h, before) && Polled(c, Last(before), t) && t < c.PairDeadline()
    ensures PromptRun(c, h, run) && Polled(c, Last(run), t + POLL)
  {
    run := Step(c, h, before);
    run := Step(c, h, run);
    run := Pass(c, h, run, Last(run).world.(clock := t + POLL));
    run := Step(c, h, run);
    run := Step(c, h, run);
    run := Step(c, h, run);
    run := Step(c, h, run);
    run := Step(c, h, run);
  }

  lemma QuietRounds(c: Params, h: Host, rounds: nat) returns (run: seq<State>)
    requires h.Valid() && c.launched + rounds as real * POLL <= c.PairDeadline()
    ensures PromptRun(c, h, run) && Polled(c, Last(run), c.launched + rounds as real * POLL)
  {
    run := FirstPoll(c, h);
    for k := 0 to rounds
      invariant PromptRun(c, h, run) && Polled(c, Last(run), c.launched + k as real * POLL)
    {
      run := QuietRound(c, h, run, c.launched + k as real * POLL);
    }
  }

  /** A run that blames a validator that ended by itself at `at`. */
  ghost predicate Blames(c: Params, h: Host, run: seq<State>, at: real) {
    && PromptRun(c, h, run) && Finished(c, run)
    && Last(run).world.val == Reaped(Exited(42), NOTHING, at, false)
    && Last(run).vars.wall == Some(c.launched - c.started)
    && Last(run).vars.pairTimedOut && !Last(run).vars.solTimedOut
  }

  /** The validator ends while the supervisor spends `slack` in each of the calls from one
      poll to the next, and the next round meets the pair deadline. */
  lemma EndsBetweenPolls(c: Params, h: Host, before: seq<State>, t: real, slack: real, at: real)
    returns (run: seq<State>)
    requires PromptRun(c, h, before) && Polled(c, Last(before), t) && t < c.PairDeadline()
    requires 0.0 <= slack <= h.delay && t <= at <= t + slack && c.PairDeadline() <= t + 5.0 * slack + POLL
    ensures Blames(c, h, run, at)
  {
    run := Pass(c, h, before, World(t + slack, EndedAtOnce(c), Zombie(Exited(42), NOTHING, at, false), false, false));
    run := Step(c, h, run);
    run := Pass(c, h, run, Last(run).world.(clock := t + 2.0 * slack));
    run := Step(c, h, run);
    run := Pass(c, h, run, Last(run).world.(clock := t + 3.0 * slack + POLL));
    run := Step(c, h, run);
    run := Pass(c, h, run, Last(run).world.(clock := t + 4.0 * slack + POLL));
    run := Step(c, h, run);
    run := Pass(c, h, run, Last(run).world.(clock := t + 5.0 * slack + POLL));
    run := CollectedTooLate(c, h, run, at);
  }

  /** A round that collects the validator at or after the pair deadline. */
  lemma CollectedTooLate(c: Params, h: Host, before: seq<State>, at: real) returns (run: seq<State>)
    requires PromptRun(c, h, before)
    requires var s := Last(before);
             && s.pc == SampleNow && c.PairDeadline() <= s.world.clock
             && s.world.sol == EndedAtOnce(c) && s.world.val == Zombie(Exited(42), NOTHING, at, false)
             && s.vars.solStatus.Some? && s.vars.valStatus.None? && s.vars.wall == Some(c.launched - c.started)
             && !s.vars.solTimedOut
    ensures Blames(c, h, run, at)
  {
    run := Step(c, h, before);
    run := Step(c, h, run);
    run := Step(c, h, run);
    run := Step(c, h, run);
    run := Step(c, h, run);
    run := Step(c, h, run);
    run := Step(c, h, run);
  }

  /** The validator ends between its poll and its kill. */
  lemma EndsBeforeKill(c: Params, h: Host, before: seq<State>, t: real) returns (run: seq<State>)
    requires PromptRun(c, h, before) && Polled(c, Last(before), t) && c.PairDeadline() <= t
    ensures Blames(c, h, run, t)
  {
    run := Pass(c, h, before, Last(before).world.(val := Zombie(Exited(42), NOTHING, t, false)));
    run := Step(c, h, run);
    run := Step(c, h, run);
    run := Step(c, h, run);
    run := Step(c, h, run);
    run := Step(c, h, run);
  }

  /** Such a run, judged. */
  lemma JudgedAsSlow(limits: TimeLimits, launched: real, h: Host, run: seq<State>, at: real) returns (j: Judged)
    requires limits.Valid() && 0.0 <= launched && Micro(launched) <= limits.limit
    requires Blames(JudgeParams(limits, 0.0, launched), h, run, at)
    ensures j.limits == limits && j.Valid() && j.run == run && BlamedThoughEarly(j, j.Params().PairDeadline() - at)
    ensures j.Params() == JudgeParams(limits, 0.0, launched)
  {
    j := Judged(limits, 0.0, launched, 0, run);
    assert j.Valid();
    FinishedHasRecord(j);
  }

  /** A validator that exits with 42 by itself can be blamed exactly when it ended after the
      supervisor's clock was started: being in time never protects it. */
  lemma PunctualValidatorBlamedIff(limits: TimeLimits, early: real)
    requires limits.Valid()
    ensures (exists j: Judged :: j.limits == limits && j.Valid() && BlamedThoughEarly(j, early))
            <==> early <= Milli(limits.hardKill + 5.0)
  {
    var c := JudgeParams(limits, 0.0, 0.0);
    JudgeParamsValid(limits, 0.0, 0.0);
    RoundingError(limits.hardKill + 5.0);
    if early <= Milli(limits.hardKill + 5.0) {
      var at := c.PairDeadline() - early;
      var slack := if early < 0.0 then at else c.PairDeadline();
      var h := Host(slack, 0.0);
      var run := FirstPoll(c, h);
      run := EndsBetweenPolls(c, h, run, 0.0, slack, at);
      NearestFixesIntegers(0);
      var j := JudgedAsSlow(limits, 0.0, h, run, at);
    }
    forall j: Judged | j.limits == limits && j.Valid() && BlamedThoughEarly(j, early)
      ensures early <= Milli(limits.hardKill + 5.0)
    {
      BlamedAfterLaunch(j, early);
    }
  }

  /** The same on a prompt host: the margin of `SlowValidatorWasRunning` is reached, by as
      many quiet rounds as fit before the last poll. */
  lemma PromptValidatorBlamedIff(limits: TimeLimits, h: Host, early: real)
    requires limits.Valid() && POLL <= limits.limit && h.Valid() && 0.0 <= early
    ensures (exists j: Judged :: j.limits == limits && j.Valid() && Prompt(h, j.run) && BlamedThoughEarly(j, early))
            <==> early <= POLL + 5.0 * h.delay && early <= Milli(limits.hardKill + 5.0)
  {
    if early <= POLL + 5.0 * h.delay && early <= Milli(limits.hardKill + 5.0) {
      var j := PromptWitness(limits, h, early);
    }
    forall j: Judged | j.limits == limits && j.Valid() && Prompt(h, j.run) && BlamedThoughEarly(j, early)
      ensures early <= POLL + 5.0 * h.delay && early <= Milli(limits.hardKill + 5.0)
    {
      BlamedAfterLaunch(j, early);
      SlowValidatorWasRunning(j, h);
    }
  }

  lemma PromptWitness(limits: TimeLimits, h: Host, early: real) returns (j: Judged)
    requires limits.Valid() && POLL <= limits.limit && h.Valid() && 0.0 <= early
    requires early <= POLL + 5.0 * h.delay && early <= Milli(limits.hardKill + 5.0)
    ensures j.limits == limits && j.Valid() && Prompt(h, j.run) && BlamedThoughEarly(j, early)
  {
    var at := Milli(limits.hardKill + 5.0) - early;
    var rounds := (at / POLL).Floor;
    var launched := at - rounds as real * POLL;
    var c := JudgeParams(limits, 0.0, launched);
    var run := QuietRounds(c, h, rounds);
    if early == 0.0 {
      run := EndsBeforeKill(c, h, run, at);
    } else {
      var slack := if early <= POLL then 0.0 else (early - POLL) / 5.0;
      run := EndsBetweenPolls(c, h, run, at, slack, at);
    }
    RoundingIsMonotone(launched, POLL);
    NearestFixesIntegers(5000);
    j := JudgedAsSlow(limits, launched, h, run, at);
  }

  // ----- below a polling period

  const INSTANT := Host(0.0, 0.0)

  /** A whole number of polling periods after the launch. */
  ghost predicate OnTick(c: Params, t: real) { exists n: nat :: t == Tick(c, n) }

  function Tick(c: Params, n: nat): real { c.launched + n as real * POLL }

  ghost predicate Ticks(c: Params, s: State) {
    && OnTick(c, s.hist.entered) && s.hist.entered <= s.world.clock
    && (s.pc.Sleeping? ==> s.vars.wake == s.hist.entered + POLL)
    && (s.hist.valPoll.Some? ==> OnTick(c, s.hist.valPoll.value))
  }

  lemma NextKeepsTicks(c: Params, s: State, s': State)
    requires Ticks(c, s) && PromptAt(INSTANT, s) && Next(c, s, s')
    ensures Ticks(c, s')
  {
    if !Elapse(s, s') && s.pc.Sleeping? {
      var n: nat :| s.hist.entered == Tick(c, n);
      assert s'.hist.entered == Tick(c, n + 1);
    }
  }

  lemma {:induction false} RunTicks(c: Params, run: seq<State>)
    requires IsRun(c, run) && Prompt(INSTANT, run)
    ensures forall i :: 0 <= i < |run| ==> Ticks(c, run[i])
  {
    assert c.launched == Tick(c, 0);
    for i := 1 to |run|
      invariant forall k :: 0 <= k < i ==> Ticks(c, run[k])
    {
      assert Next(c, run[i - 1], run[i - 1 + 1]);
      NextKeepsTicks(c, run[i - 1], run[i]);
    }
  }

  /** `PromptValidatorBlamedIff` cannot be had for every limit: where no call takes time the
      polls tick from the launch, and a limit of one millisecond leaves no launch that puts
      a poll four milliseconds before the pair deadline. */
  lemma ShortLimitMissesTheMargin(limits: TimeLimits)
    requires limits == TimeLimits(0.001, 0.001, 0.002)
    ensures limits.Valid() && 0.004 <= POLL
    ensures !exists j: Judged ::
              j.limits == limits && j.Valid() && Prompt(INSTANT, j.run) && BlamedThoughEarly(j, 0.004)
  {
    forall j: Judged | j.limits == limits && j.Valid() && Prompt(INSTANT, j.run)
      ensures !BlamedThoughEarly(j, 0.004)
    {
      FinishedHasRecord(j);
      NearestFixesIntegers(5002);
      RunTimed(j.Params(), INSTANT, j.run);
      RunTicks(j.Params(), j.run);
      RoundingError(j.End().vars.wall.value);
    }
  }
}
