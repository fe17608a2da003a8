/**
 The whole judgement of a solution: the supervisors inside the containers, the records
 they leave, the classification, the comparator or validator, and the loop over the
 testcases.  The containers are no longer arbitrary: each one leaves the record of some
 finished run of its supervisor, under any interleaving.
 */
module WholeJudgement {
  import opened Options
  import opened Processes
  import opened Rounding
  import opened Verdicts
  import opened Testcase
  import opened Judge
  import opened JudgeLaws
  import CompareFlags
  import Results
  import BatchMachine
  import BatchTiming
  import InteractiveMachine
  import InteractiveTiming
  import Batch = BatchBlame
  import Pair = InteractiveBlame

  // ----- the solution's verdict is that of its first rejected testcase

  /** The verdict of testcase `k`, judged on its own. */
  function CaseVerdict(o: Oracle, mode: Mode, flags: CompareFlags.CompareFlags, k: nat, c: Case, s: Settings)
    : Option<Verdict>
  {
    var r := CaseResult(o, mode, flags, k, c, s);
    if r.Done? then Some(r.value.verdict) else None
  }

  /** `verdicts[k]` is the verdict of testcase `k`, for the testcases up to some point. */
  ghost predicate CaseVerdicts(
    o: Oracle, mode: Mode, flags: CompareFlags.CompareFlags, cases: seq<Case>, s: Settings, verdicts: seq<Verdict>)
  {
    && |verdicts| <= |cases|
    && forall k :: 0 <= k < |verdicts| ==> CaseVerdict(o, mode, flags, k, cases[k], s) == Some(verdicts[k])
  }

  lemma {:induction false} JudgeAllIsPointwise(
    o: Oracle, mode: Mode, flags: CompareFlags.CompareFlags, cases: seq<Case>, s: Settings, verdicts: seq<Verdict>,
    i: nat)
    requires i <= |cases| == |verdicts| && CaseVerdicts(o, mode, flags, cases, s, verdicts)
    ensures var all := JudgeFrom(o, mode, flags, cases, s, true, i, false);
            all.Done? && VerdictsOf(all.value) == verdicts[i..]
    decreases |cases| - i
  {
    hide CaseResult;
    if i < |cases| {
      assert CaseVerdict(o, mode, flags, i, cases[i], s) == Some(verdicts[i]);
      JudgeAllIsPointwise(o, mode, flags, cases, s, verdicts, i + 1);
      var r := CaseResult(o, mode, flags, i, cases[i], s);
      var rest := JudgeFrom(o, mode, flags, cases, s, true, i + 1, false);
      assert VerdictsOf([r.value] + rest.value) == [verdicts[i]] + verdicts[i + 1..];
    }
  }

  lemma {:induction false} NothingSkipped(verdicts: seq<Verdict>)
    requires NotRun !in verdicts
    ensures Results.Ran(verdicts) == verdicts
  {
    if verdicts != [] {
      NothingSkipped(verdicts[1..]);
      assert verdicts == [verdicts[0]] + verdicts[1..];
    }
  }

  /** The first rejection, by index. */
  ghost predicate IsFirstRejection(verdicts: seq<Verdict>, v: Verdict) {
    if v.Accepted? then forall k :: 0 <= k < |verdicts| ==> verdicts[k].Accepted?
    else exists k :: 0 <= k < |verdicts| && verdicts[k] == v && forall i :: 0 <= i < k ==> verdicts[i].Accepted?
  }

  lemma {:induction false} FirstRejectionIsFirst(verdicts: seq<Verdict>)
    ensures IsFirstRejection(verdicts, Results.FirstRejection(verdicts))
  {
    if verdicts != [] && verdicts[0].Accepted? {
      FirstRejectionIsFirst(verdicts[1..]);
      var v := Results.FirstRejection(verdicts[1..]);
      if !v.Accepted? {
        var rest := verdicts[1..];
        var k :| 0 <= k < |rest| && rest[k] == v && forall i :: 0 <= i < k ==> rest[i].Accepted?;
        assert verdicts[k + 1] == v;
        forall i | 0 <= i < k + 1 ensures verdicts[i].Accepted? {
          if 0 < i { assert verdicts[1..][i - 1].Accepted?; }
        }
      } else {
        forall k | 0 <= k < |verdicts| ensures verdicts[k].Accepted? {
          if 0 < k { assert verdicts[1..][k - 1].Accepted?; }
        }
      }
    }
  }

  /** The comparator's flags, which only default mode reads. */
  ghost predicate FlagsOf(o: Oracle, mode: Mode, s: Settings, flags: CompareFlags.CompareFlags) {
    if mode.Default? then CompareFlags.Parse(o.lexicon.read, s.validatorFlags) == CompareFlags.Ok(flags)
    else flags == CompareFlags.DEFAULTS
  }

  /** The verdicts known decide the judgement: they are all of them, or judging is lazy and
      one of them is a rejection.  Nothing is asked of the testcases never started. */
  ghost predicate Decisive(cases: seq<Case>, judgeAll: bool, verdicts: seq<Verdict>) {
    |verdicts| == |cases| || (!judgeAll && exists n :: 0 <= n < |verdicts| && !verdicts[n].Accepted?)
  }

  /** Lazy judging runs up to the first rejection and no further. */
  lemma {:induction false} LazyStopsAt(
    o: Oracle, mode: Mode, flags: CompareFlags.CompareFlags, cases: seq<Case>, s: Settings, verdicts: seq<Verdict>,
    n: nat, i: nat)
    requires i <= n < |verdicts| && CaseVerdicts(o, mode, flags, cases, s, verdicts)
    requires !verdicts[n].Accepted? && !verdicts[n].NotRun? && forall k :: i <= k < n ==> verdicts[k].Accepted?
    ensures var lazy := JudgeFrom(o, mode, flags, cases, s, false, i, false);
            lazy.Done? && Results.Ran(VerdictsOf(lazy.value)) == verdicts[i..n + 1]
    decreases n - i
  {
    hide CaseResult;
    assert CaseVerdict(o, mode, flags, i, cases[i], s) == Some(verdicts[i]);
    var r := CaseResult(o, mode, flags, i, cases[i], s);
    if i == n {
      StoppedSkipsTheRest(o, mode, flags, cases, s, false, i + 1);
      SkippedAddNothing(cases[i + 1..]);
    } else {
      LazyStopsAt(o, mode, flags, cases, s, verdicts, n, i + 1);
    }
    var rest := JudgeFrom(o, mode, flags, cases, s, false, i + 1, i == n);
    assert VerdictsOf([r.value] + rest.value)[1..] == VerdictsOf(rest.value);
    assert verdicts[i..n + 1] == [verdicts[i]] + verdicts[i + 1..n + 1];
  }

  lemma LongerStillFirst(verdicts: seq<Verdict>, n: nat, v: Verdict)
    requires n <= |verdicts| && IsFirstRejection(verdicts[..n], v) && !v.Accepted?
    ensures IsFirstRejection(verdicts, v)
  {
    var some := verdicts[..n];
    var k :| 0 <= k < |some| && some[k] == v && forall i :: 0 <= i < k ==> some[i].Accepted?;
    assert verdicts[k] == v;
    assert forall i :: 0 <= i < k ==> verdicts[i] == some[i];
  }

  lemma FirstRejectedIndex(verdicts: seq<Verdict>) returns (n: nat)
    requires exists k :: 0 <= k < |verdicts| && !verdicts[k].Accepted?
    ensures n < |verdicts| && !verdicts[n].Accepted? && forall k :: 0 <= k < n ==> verdicts[k].Accepted?
  {
    n := 0;
    while verdicts[n].Accepted?
      invariant n < |verdicts| && forall k :: 0 <= k < n ==> verdicts[k].Accepted?
      decreases |verdicts| - n
    {
      n := n + 1;
    }
  }

  lemma NoneSkipped(
    o: Oracle, mode: Mode, flags: CompareFlags.CompareFlags, cases: seq<Case>, s: Settings, verdicts: seq<Verdict>)
    requires CaseVerdicts(o, mode, flags, cases, s, verdicts)
    ensures NotRun !in verdicts
  {
    forall k | 0 <= k < |verdicts| ensures !verdicts[k].NotRun? {
      assert CaseVerdict(o, mode, flags, k, cases[k], s) == Some(verdicts[k]);
      CasesAreNeverSkipped(o, mode, flags, k, cases[k], s);
    }
  }

  /** A solution that compiles is judged, lazily or not, by its first rejected testcase. */
  lemma FirstRejectionDecides(
    o: Oracle, p: Problem, flags: CompareFlags.CompareFlags, cases: seq<Case>, s: Settings, judgeAll: bool,
    verdicts: seq<Verdict>)
    requires p.compileOk && (p.mode.Default? || p.buildOk) && FlagsOf(o, p.mode, s, flags)
    requires cases != [] && CaseVerdicts(o, p.mode, flags, cases, s, verdicts) && Decisive(cases, judgeAll, verdicts)
    ensures var r := Judged(o, p, cases, s, judgeAll);
            r.Done? && IsFirstRejection(verdicts, r.value.verdict)
  {
    NoneSkipped(o, p.mode, flags, cases, s, verdicts);
    hide CaseResult, CaseVerdict;
    if |verdicts| == |cases| {
      JudgeAllIsPointwise(o, p.mode, flags, cases, s, verdicts, 0);
      assert verdicts[0..] == verdicts;
      NothingSkipped(verdicts);
      FirstRejectionIsFirst(verdicts);
      LazyRefinesJudgeAll(o, p, cases, s);
    } else {
      var n := FirstRejectedIndex(verdicts);
      LazyStopsAt(o, p.mode, flags, cases, s, verdicts, n, 0);
      assert verdicts[0..n + 1] == verdicts[..n + 1];
      FirstRejectionIsFirst(verdicts[..n + 1]);
      assert !verdicts[..n + 1][n].Accepted?;
      LongerStillFirst(verdicts, n + 1, Results.FirstRejection(verdicts[..n + 1]));
    }
  }

  // ----- batch problems, with the default comparator or a custom validator

  /** Container `k` leaves the record of the run `j` and, as the output to be judged, the file
      as it is at the end of `j` (empty when it is gone); `j` is judged for the health of the run
      alone, as if its output were right. */
  ghost predicate LeavesRecordOf(o: Oracle, k: nat, c: Case, s: Settings, j: Batch.Judged) {
    && j.Valid() && j.limits == s.limits && j.outputLimitMib == s.outputLimitMib
    && j.compareOk && j.compareMessage.NoMessage?
    && var run := BatchRunOf(o, k, c, s);
       && run.Measured? && Batch.HasRecord(j.End()) && run.measurement == Batch.Measurement(j.End(), j.oomKilled)
       && |run.team| == if j.End().world.file.Some? then j.End().world.file.value else 0
  }

  /** What the comparator or the validator says about the output. */
  function Answer(o: Oracle, mode: Mode, flags: CompareFlags.CompareFlags, k: nat, c: Case, s: Settings): Verdict
    requires BatchRunOf(o, k, c, s).Measured?
  {
    var team := BatchRunOf(o, k, c, s).team;
    if mode.Custom? then ValidatorOutcome(o, k, c, team, s).0
    else if Compared(o, c, team, flags).accepted then Accepted
    else WrongAnswer
  }

  /** The answer counts only after a healthy run. */
  ghost function RunVerdict(
    o: Oracle, mode: Mode, flags: CompareFlags.CompareFlags, k: nat, c: Case, s: Settings, j: Batch.Judged): Verdict
    requires LeavesRecordOf(o, k, c, s, j)
  {
    if j.Verdict().Accepted? then Answer(o, mode, flags, k, c, s) else j.Verdict()
  }

  lemma BatchCaseVerdict(
    o: Oracle, mode: Mode, flags: CompareFlags.CompareFlags, k: nat, c: Case, s: Settings, j: Batch.Judged)
    requires LeavesRecordOf(o, k, c, s, j) && !mode.CustomInteractive?
    ensures CaseVerdict(o, mode, flags, k, c, s) == Some(RunVerdict(o, mode, flags, k, c, s, j))
  {
  }

  /** The row reported for the testcase is true of the process: its wall covers the time the
      solution ran, and its other columns are the kernel's account of it. */
  lemma BatchRowIsTrue(
    o: Oracle, mode: Mode, flags: CompareFlags.CompareFlags, k: nat, c: Case, s: Settings, j: Batch.Judged)
    requires LeavesRecordOf(o, k, c, s, j) && !mode.CustomInteractive?
    ensures j.End().world.child.Reaped?
    ensures var r, child := CaseResult(o, mode, flags, k, c, s), j.End().world.child;
            && r.Done? && r.value.id == c.id && r.value.group == c.group
            && r.value.verdict == RunVerdict(o, mode, flags, k, c, s, j)
            && j.Ran() <= r.value.wall + 0.0000005
            && -0.0000005 <= r.value.cpu - child.usage.cpu <= 0.0000005
            && r.value.memKib == child.usage.maxRssKib
            && r.value.exitCode == if child.status.Exited? then child.status.code else -1
  {
    Batch.FinishedHasRecord(j);
    BatchCaseVerdict(o, mode, flags, k, c, s, j);
    RoundingError(j.End().vars.wall.value);
    RoundingError(j.End().vars.usage.value.cpu);
  }

  /** The supervisor runs under the parameters of the request and, on a prompt host, the
      container returns before the request times out; start-up and return are counted. */
  lemma BatchContainerEndsInTime(
    o: Oracle, k: nat, c: Case, s: Settings, j: Batch.Judged, h: Host, called: real, returned: real)
    requires LeavesRecordOf(o, k, c, s, j) && h.Valid() && BatchTiming.Prompt(h, j.run)
    requires j.launched <= j.started + BatchRequestOf(c, s).hardKill
    requires (j.started - called) + 12.0 * h.delay + h.reap + (returned - j.End().hist.entered) <= 58.0
    ensures var request := BatchRequestOf(c, s);
            && j.Params() == BatchMachine.Params(j.started, j.launched, request.hardKill, request.outputLimit)
            && returned - called < request.timeout
  {
    Batch.HostTimeoutIsNotReached(j, h, called, returned);
  }

  /** The runs that took place, in order, each leaving its record. */
  ghost predicate AllLeaveRecords(o: Oracle, cases: seq<Case>, s: Settings, runs: seq<Batch.Judged>) {
    |runs| <= |cases| && forall k :: 0 <= k < |runs| ==> LeavesRecordOf(o, k, cases[k], s, runs[k])
  }

  ghost function RunVerdicts(
    o: Oracle, mode: Mode, flags: CompareFlags.CompareFlags, cases: seq<Case>, s: Settings, runs: seq<Batch.Judged>)
    : (r: seq<Verdict>)
    requires AllLeaveRecords(o, cases, s, runs)
    ensures |r| == |runs|
    ensures forall k :: 0 <= k < |runs| ==> r[k] == RunVerdict(o, mode, flags, k, cases[k], s, runs[k])
  {
    seq(|runs|, k requires 0 <= k < |runs| => RunVerdict(o, mode, flags, k, cases[k], s, runs[k]))
  }

  /** All containers that are started leave records: every one, or up to a rejection when
      judging is lazy. */
  ghost predicate AllRan(
    o: Oracle, mode: Mode, flags: CompareFlags.CompareFlags, cases: seq<Case>, s: Settings, judgeAll: bool,
    runs: seq<Batch.Judged>)
  {
    && cases != [] && AllLeaveRecords(o, cases, s, runs)
    && Decisive(cases, judgeAll, RunVerdicts(o, mode, flags, cases, s, runs))
  }

  /** A problem without interaction whose programs compile. */
  ghost predicate IsBatch(o: Oracle, p: Problem, s: Settings, flags: CompareFlags.CompareFlags) {
    p.compileOk && (p.mode.Default? || p.buildOk) && !p.mode.CustomInteractive? && FlagsOf(o, p.mode, s, flags)
  }

  /** A batch solution gets the verdict of the first testcase whose run, or whose output, was
      rejected: lazily or not, under any interleaving of the supervisors. */
  lemma BatchFirstRejectionDecides(
    o: Oracle, p: Problem, flags: CompareFlags.CompareFlags, cases: seq<Case>, s: Settings, judgeAll: bool,
    runs: seq<Batch.Judged>)
    requires IsBatch(o, p, s, flags) && AllRan(o, p.mode, flags, cases, s, judgeAll, runs)
    ensures var r := Judged(o, p, cases, s, judgeAll);
            r.Done? && IsFirstRejection(RunVerdicts(o, p.mode, flags, cases, s, runs), r.value.verdict)
  {
    var verdicts := RunVerdicts(o, p.mode, flags, cases, s, runs);
    forall k | 0 <= k < |runs|
      ensures CaseVerdict(o, p.mode, flags, k, cases[k], s) == Some(verdicts[k])
    {
      BatchCaseVerdict(o, p.mode, flags, k, cases[k], s, runs[k]);
    }
    hide CaseVerdict, RunVerdicts, Judged, LeavesRecordOf;
    FirstRejectionDecides(o, p, flags, cases, s, judgeAll, verdicts);
  }

  /** What the record and the answer say of a solved testcase. */
  ghost predicate Solved(
    o: Oracle, mode: Mode, flags: CompareFlags.CompareFlags, k: nat, c: Case, s: Settings, j: Batch.Judged)
    requires LeavesRecordOf(o, k, c, s, j)
  {
    && j.End().world.child.Reaped? && j.End().world.child.status == Exited(0)
    && Batch.InTime(j) && !j.oomKilled && Answer(o, mode, flags, k, c, s).Accepted?
  }

  lemma SolvedIff(
    o: Oracle, mode: Mode, flags: CompareFlags.CompareFlags, k: nat, c: Case, s: Settings, j: Batch.Judged)
    requires LeavesRecordOf(o, k, c, s, j)
    ensures RunVerdict(o, mode, flags, k, c, s, j).Accepted? <==> Solved(o, mode, flags, k, c, s, j)
  {
    Batch.AnswerVerdictsExactly(j);
  }

  /** Accepted exactly when every record and every answer says so. */
  lemma BatchAcceptedExactly(
    o: Oracle, p: Problem, flags: CompareFlags.CompareFlags, cases: seq<Case>, s: Settings, judgeAll: bool,
    runs: seq<Batch.Judged>)
    requires IsBatch(o, p, s, flags) && AllRan(o, p.mode, flags, cases, s, judgeAll, runs)
    ensures var r := Judged(o, p, cases, s, judgeAll);
            r.Done? && (r.value.verdict.Accepted? <==>
              |runs| == |cases| && forall k :: 0 <= k < |runs| ==> Solved(o, p.mode, flags, k, cases[k], s, runs[k]))
  {
    BatchFirstRejectionDecides(o, p, flags, cases, s, judgeAll, runs);
    forall k | 0 <= k < |runs|
      ensures RunVerdict(o, p.mode, flags, k, cases[k], s, runs[k]).Accepted?
              <==> Solved(o, p.mode, flags, k, cases[k], s, runs[k])
    {
      SolvedIff(o, p.mode, flags, k, cases[k], s, runs[k]);
    }
    hide RunVerdict, Solved, Judged, LeavesRecordOf;
    var verdicts := RunVerdicts(o, p.mode, flags, cases, s, runs);
    assert forall k :: 0 <= k < |runs| ==> verdicts[k] == RunVerdict(o, p.mode, flags, k, cases[k], s, runs[k]);
  }

  /** Nobody shrinks the output files, and nobody writes them any more at the last check. */
  ghost predicate FilesOnlyGrow(runs: seq<Batch.Judged>) {
    forall k :: 0 <= k < |runs| ==> 0 < |runs[k].run| && BatchMachine.GrowOnly(runs[k].run) && runs[k].End().hist.quiet
  }

  /** The process ended well, and what it wrote is small enough and accepted. */
  ghost predicate EarnedRun(
    o: Oracle, mode: Mode, flags: CompareFlags.CompareFlags, k: nat, c: Case, s: Settings, j: Batch.Judged)
    requires LeavesRecordOf(o, k, c, s, j)
  {
    && Batch.EndedWell(j) && |BatchRunOf(o, k, c, s).team| <= s.outputLimitMib * 1024 * 1024
    && Answer(o, mode, flags, k, c, s).Accepted?
  }

  /** Acceptance is earned, on any host: on every testcase the process itself exited with 0,
      was never killed, ran no longer than the limit (up to the rounding of the record), kept
      its memory, and wrote an output that is within its limit and accepted. */
  lemma BatchAcceptanceIsEarned(
    o: Oracle, p: Problem, flags: CompareFlags.CompareFlags, cases: seq<Case>, s: Settings, judgeAll: bool,
    runs: seq<Batch.Judged>)
    requires IsBatch(o, p, s, flags) && AllRan(o, p.mode, flags, cases, s, judgeAll, runs) && FilesOnlyGrow(runs)
    requires var r := Judged(o, p, cases, s, judgeAll); r.Done? && r.value.verdict.Accepted?
    ensures |runs| == |cases|
    ensures forall k :: 0 <= k < |runs| ==> EarnedRun(o, p.mode, flags, k, cases[k], s, runs[k])
  {
    BatchFirstRejectionDecides(o, p, flags, cases, s, judgeAll, runs);
    forall k | 0 <= k < |runs|
      ensures EarnedRun(o, p.mode, flags, k, cases[k], s, runs[k])
    {
      assert LeavesRecordOf(o, k, cases[k], s, runs[k]);
      assert RunVerdicts(o, p.mode, flags, cases, s, runs)[k].Accepted?;
      Batch.AcceptedMeansEndedWell(runs[k]);
    }
  }

  /** The verdict that the end of the process and its output deserve. */
  ghost function EndVerdict(
    o: Oracle, mode: Mode, flags: CompareFlags.CompareFlags, k: nat, c: Case, s: Settings, j: Batch.Judged): Verdict
    requires LeavesRecordOf(o, k, c, s, j)
  {
    var child := j.End().world.child;
    if j.oomKilled || !child.Reaped? || child.status != Exited(0) then RunTimeError else Answer(o, mode, flags, k, c, s)
  }

  ghost predicate AllEndInTime(runs: seq<Batch.Judged>, h: Host) {
    forall k :: 0 <= k < |runs| ==> runs[k].Valid() && Batch.EndedInTime(runs[k], h)
  }

  ghost function EndVerdicts(
    o: Oracle, mode: Mode, flags: CompareFlags.CompareFlags, cases: seq<Case>, s: Settings, runs: seq<Batch.Judged>)
    : (r: seq<Verdict>)
    requires AllLeaveRecords(o, cases, s, runs)
    ensures |r| == |runs|
    ensures forall k :: 0 <= k < |runs| ==> r[k] == EndVerdict(o, mode, flags, k, cases[k], s, runs[k])
  {
    seq(|runs|, k requires 0 <= k < |runs| => EndVerdict(o, mode, flags, k, cases[k], s, runs[k]))
  }

  /** Conversely, on a prompt host a solution whose processes end a polling period before the
      limit, within the output limit, gets exactly the verdict that their ends and their
      outputs deserve; in particular it is accepted when it is right. */
  lemma TimelyBatchVerdict(
    o: Oracle, p: Problem, flags: CompareFlags.CompareFlags, cases: seq<Case>, s: Settings, judgeAll: bool,
    runs: seq<Batch.Judged>, h: Host)
    requires IsBatch(o, p, s, flags) && AllRan(o, p.mode, flags, cases, s, judgeAll, runs) && AllEndInTime(runs, h)
    ensures var r := Judged(o, p, cases, s, judgeAll);
            r.Done? && IsFirstRejection(EndVerdicts(o, p.mode, flags, cases, s, runs), r.value.verdict)
  {
    BatchFirstRejectionDecides(o, p, flags, cases, s, judgeAll, runs);
    var verdicts := RunVerdicts(o, p.mode, flags, cases, s, runs);
    var deserved := EndVerdicts(o, p.mode, flags, cases, s, runs);
    forall k | 0 <= k < |runs| ensures verdicts[k] == deserved[k] {
      assert LeavesRecordOf(o, k, cases[k], s, runs[k]);
      Batch.TimelyChildIsJudgedByItsEnd(runs[k], h);
    }
    assert verdicts == deserved;
  }

  // ----- interactive problems

  ghost predicate LeavesPairRecordOf(o: Oracle, k: nat, c: Case, s: Settings, j: Pair.Judged) {
    && j.Valid() && j.limits == s.limits && j.memoryMib == s.memoryMib
    && var run := PairRunOf(o, k, c, s);
       run.Played? && Pair.HasRecord(j.End()) && run.raw == Pair.Record(j.End())
  }

  /** The runs that took place, in order, each leaving its record. */
  ghost predicate AllLeavePairRecords(o: Oracle, cases: seq<Case>, s: Settings, runs: seq<Pair.Judged>) {
    |runs| <= |cases| && forall k :: 0 <= k < |runs| ==> LeavesPairRecordOf(o, k, cases[k], s, runs[k])
  }

  ghost function PairVerdicts(runs: seq<Pair.Judged>): (r: seq<Verdict>)
    requires forall k :: 0 <= k < |runs| ==> runs[k].Valid()
    ensures |r| == |runs| && forall k :: 0 <= k < |runs| ==> r[k] == runs[k].Verdict()
  {
    seq(|runs|, k requires 0 <= k < |runs| => runs[k].Verdict())
  }

  lemma PairCaseVerdict(o: Oracle, k: nat, c: Case, s: Settings, j: Pair.Judged)
    requires LeavesPairRecordOf(o, k, c, s, j)
    ensures CaseVerdict(o, CustomInteractive, CompareFlags.DEFAULTS, k, c, s) == Some(j.Verdict())
  {
  }

  /** The row reported for the testcase is true of the solution's process. */
  lemma PairRowIsTrue(o: Oracle, k: nat, c: Case, s: Settings, j: Pair.Judged)
    requires LeavesPairRecordOf(o, k, c, s, j)
    ensures j.End().world.sol.Reaped?
    ensures var r, sol := CaseResult(o, CustomInteractive, CompareFlags.DEFAULTS, k, c, s), j.End().world.sol;
            && r.Done? && r.value.id == c.id && r.value.group == c.group && r.value.verdict == j.Verdict()
            && j.Ran() <= r.value.wall + 0.0000005
            && -0.0000005 <= r.value.cpu - sol.usage.cpu <= 0.0000005
            && r.value.memKib == sol.usage.maxRssKib
            && r.value.exitCode == if sol.status.Exited? then sol.status.code else -1
  {
    Pair.FinishedHasRecord(j);
    RoundingError(j.End().vars.wall.value);
    RoundingError(j.End().vars.solUsage.value.cpu);
  }

  /** The supervisor runs under the parameters of the request and, on a prompt host, the
      container returns before the request times out; start-up and return are counted. */
  lemma PairContainerEndsInTime(
    o: Oracle, k: nat, c: Case, s: Settings, j: Pair.Judged, h: Host, called: real, returned: real)
    requires LeavesPairRecordOf(o, k, c, s, j) && h.Valid() && InteractiveTiming.Prompt(h, j.run)
    requires j.launched <= j.started + PairRequestOf(c, s).pairTimeout
    requires (j.started - called) + 22.0 * h.delay + 2.0 * h.reap + (returned - j.End().hist.entered) <= 54.0
    ensures var request := PairRequestOf(c, s);
            && j.Params() == InteractiveMachine.Params(j.started, j.launched, request.hardKill, request.pairTimeout)
            && returned - called < request.timeout
  {
    Pair.HostTimeoutIsNotReached(j, h, called, returned);
  }

  /** All containers that are started leave records. */
  ghost predicate AllPairsRan(o: Oracle, cases: seq<Case>, s: Settings, judgeAll: bool, runs: seq<Pair.Judged>) {
    && cases != [] && AllLeavePairRecords(o, cases, s, runs)
    && Decisive(cases, judgeAll, PairVerdicts(runs))
  }

  const INTERACTIVE := Problem(CustomInteractive, true, true)

  /** An interactive solution gets the verdict of the first run that was rejected. */
  lemma PairFirstRejectionDecides(o: Oracle, cases: seq<Case>, s: Settings, judgeAll: bool, runs: seq<Pair.Judged>)
    requires AllPairsRan(o, cases, s, judgeAll, runs)
    ensures var r := Judged(o, INTERACTIVE, cases, s, judgeAll);
            r.Done? && IsFirstRejection(PairVerdicts(runs), r.value.verdict)
  {
    forall k | 0 <= k < |runs|
      ensures CaseVerdict(o, CustomInteractive, CompareFlags.DEFAULTS, k, cases[k], s) == Some(runs[k].Verdict())
    {
      PairCaseVerdict(o, k, cases[k], s, runs[k]);
    }
    hide CaseVerdict, Judged;
    FirstRejectionDecides(o, INTERACTIVE, CompareFlags.DEFAULTS, cases, s, judgeAll, PairVerdicts(runs));
  }

  /** What the record says of a won testcase. */
  ghost predicate Won(j: Pair.Judged)
    requires j.Valid()
  {
    Pair.Clean(j) && Pair.Healthy(j) && j.End().world.val.status == Exited(42)
  }

  /** Accepted exactly when every record says so. */
  lemma InteractiveAcceptedExactly(o: Oracle, cases: seq<Case>, s: Settings, judgeAll: bool, runs: seq<Pair.Judged>)
    requires AllPairsRan(o, cases, s, judgeAll, runs)
    ensures var r := Judged(o, INTERACTIVE, cases, s, judgeAll);
            r.Done? && (r.value.verdict.Accepted? <==>
              |runs| == |cases| && forall k :: 0 <= k < |runs| ==> Won(runs[k]))
  {
    PairFirstRejectionDecides(o, cases, s, judgeAll, runs);
    forall k | 0 <= k < |runs| ensures PairVerdicts(runs)[k].Accepted? <==> Won(runs[k]) {
      assert LeavesPairRecordOf(o, k, cases[k], s, runs[k]);
      Pair.AnswerVerdictsExactly(runs[k]);
    }
    hide Won, Judged, LeavesPairRecordOf;
  }

  /** The solution ended by itself in good health and within the limit, up to the rounding of
      the record, and the validator by itself with 42, on a prompt host at most
      three calls after the pair deadline. */
  ghost predicate EarnedPair(j: Pair.Judged, h: Host)
    requires j.Valid()
  {
    var val := j.End().world.val;
    && Pair.EndedWell(j) && val.Reaped? && val.status == Exited(42) && !val.killed
    && (InteractiveTiming.Prompt(h, j.run) ==> val.at <= j.Params().PairDeadline() + 3.0 * h.delay)
  }

  /** Acceptance is earned by the two processes of every testcase, on any host. */
  lemma InteractiveAcceptanceIsEarned(
    o: Oracle, cases: seq<Case>, s: Settings, judgeAll: bool, runs: seq<Pair.Judged>, h: Host)
    requires AllPairsRan(o, cases, s, judgeAll, runs) && h.Valid()
    requires var r := Judged(o, INTERACTIVE, cases, s, judgeAll); r.Done? && r.value.verdict.Accepted?
    ensures |runs| == |cases| && forall k :: 0 <= k < |runs| ==> EarnedPair(runs[k], h)
  {
    PairFirstRejectionDecides(o, cases, s, judgeAll, runs);
    forall k | 0 <= k < |runs| ensures EarnedPair(runs[k], h) {
      assert LeavesPairRecordOf(o, k, cases[k], s, runs[k]);
      assert PairVerdicts(runs)[k].Accepted?;
      Pair.AcceptedMeansWon(runs[k], h);
    }
  }

  /** The verdict that the ends of the two processes deserve. */
  ghost function EndPairVerdict(j: Pair.Judged): Verdict
    requires j.Valid()
  {
    var val := j.End().world.val;
    if !val.Reaped? || (val.status != Exited(42) && val.status != Exited(43)) then JudgeError
    else if !Pair.Healthy(j) then RunTimeError
    else if val.status == Exited(42) then Accepted
    else WrongAnswer
  }

  ghost predicate AllPairsEndInTime(runs: seq<Pair.Judged>, h: Host) {
    forall k :: 0 <= k < |runs| ==> runs[k].Valid() && Pair.EndedInTime(runs[k], h)
  }

  ghost function EndPairVerdicts(runs: seq<Pair.Judged>): (r: seq<Verdict>)
    requires forall k :: 0 <= k < |runs| ==> runs[k].Valid()
    ensures |r| == |runs| && forall k :: 0 <= k < |runs| ==> r[k] == EndPairVerdict(runs[k])
  {
    seq(|runs|, k requires 0 <= k < |runs| => EndPairVerdict(runs[k]))
  }

  /** Conversely, on a prompt host a solution all of whose processes end a polling period
      before their limits gets exactly the verdict that their ends deserve. */
  lemma TimelyInteractiveVerdict(
    o: Oracle, cases: seq<Case>, s: Settings, judgeAll: bool, runs: seq<Pair.Judged>, h: Host)
    requires AllPairsRan(o, cases, s, judgeAll, runs) && AllPairsEndInTime(runs, h)
    ensures var r := Judged(o, INTERACTIVE, cases, s, judgeAll);
            r.Done? && IsFirstRejection(EndPairVerdicts(runs), r.value.verdict)
  {
    PairFirstRejectionDecides(o, cases, s, judgeAll, runs);
    forall k | 0 <= k < |runs| ensures PairVerdicts(runs)[k] == EndPairVerdicts(runs)[k] {
      Pair.TimelyPairIsJudgedByItsEnd(runs[k], h);
    }
    assert PairVerdicts(runs) == EndPairVerdicts(runs);
  }
}
