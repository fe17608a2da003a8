/** What the judging loop promises, over all problems, testcases and containers. */
module JudgeLaws {
  import opened Options
  import opened Verdicts
  import opened TimeLimits
  import opened Scratch
  import opened Testcase
  import opened Judge
  import CompareFlags
  import Results

  // ----- lazy judging refines judge-all

  /** Every testcase that was judged has a verdict of its own. */
  lemma CasesAreNeverSkipped(o: Oracle, mode: Mode, flags: CompareFlags.CompareFlags, k: nat, c: Case, s: Settings)
    ensures var r := CaseResult(o, mode, flags, k, c, s);
            r.Done? ==> !r.value.verdict.NotRun? && !r.value.verdict.CompilerError?
                        && r.value.id == c.id && r.value.group == c.group
  {
  }

  /** `all` cut after its first entry that is not accepted, and padded with skipped cases. */
  function CutAndPad(all: seq<TestCaseResult>, cases: seq<Case>): seq<TestCaseResult>
    requires |all| == |cases|
  {
    if all == [] then []
    else if all[0].verdict.Accepted? then [all[0]] + CutAndPad(all[1..], cases[1..])
    else [all[0]] + AllSkipped(cases[1..])
  }

  lemma {:induction false} StoppedSkipsTheRest(
    o: Oracle, mode: Mode, flags: CompareFlags.CompareFlags, cases: seq<Case>, s: Settings, judgeAll: bool, i: nat)
    requires i <= |cases|
    ensures JudgeFrom(o, mode, flags, cases, s, judgeAll, i, true) == Done(AllSkipped(cases[i..]))
    decreases |cases| - i
  {
    if i < |cases| {
      StoppedSkipsTheRest(o, mode, flags, cases, s, judgeAll, i + 1);
      assert cases[i..][1..] == cases[i + 1..];
    }
  }

  lemma {:induction false} LazyCutsFrom(
    o: Oracle, mode: Mode, flags: CompareFlags.CompareFlags, cases: seq<Case>, s: Settings, i: nat)
    requires i <= |cases|
    ensures var all, lazy := JudgeFrom(o, mode, flags, cases, s, true, i, false),
                             JudgeFrom(o, mode, flags, cases, s, false, i, false);
            && (all.Done? ==> |all.value| == |cases| - i && lazy == Done(CutAndPad(all.value, cases[i..])))
            && (lazy.Raised? ==> all == lazy)
    decreases |cases| - i
  {
    hide CaseResult;
    if i < |cases| {
      LazyCutsFrom(o, mode, flags, cases, s, i + 1);
      StoppedSkipsTheRest(o, mode, flags, cases, s, false, i + 1);
      var r := CaseResult(o, mode, flags, i, cases[i], s);
      var rest := JudgeFrom(o, mode, flags, cases, s, true, i + 1, false);
      if r.Done? && rest.Done? {
        var all := [r.value] + rest.value;
        assert all[1..] == rest.value && cases[i..][1..] == cases[i + 1..];
      }
    }
  }

  lemma {:induction false} SkippedAddNothing(cases: seq<Case>)
    ensures Results.Ran(VerdictsOf(AllSkipped(cases))) == []
  {
    if cases != [] {
      SkippedAddNothing(cases[1..]);
      assert VerdictsOf(AllSkipped(cases))[1..] == VerdictsOf(AllSkipped(cases[1..]));
    }
  }

  lemma {:induction false} CutKeepsTheVerdict(all: seq<TestCaseResult>, cases: seq<Case>)
    requires |all| == |cases| && forall i :: 0 <= i < |all| ==> !all[i].verdict.NotRun?
    ensures Results.SolutionVerdict(VerdictsOf(CutAndPad(all, cases))) == Results.SolutionVerdict(VerdictsOf(all))
    ensures Results.Ran(VerdictsOf(CutAndPad(all, cases))) == [] <==> Results.Ran(VerdictsOf(all)) == []
    ensures Results.FirstRejection(Results.Ran(VerdictsOf(CutAndPad(all, cases))))
            == Results.FirstRejection(Results.Ran(VerdictsOf(all)))
  {
    if all != [] {
      CutKeepsTheVerdict(all[1..], cases[1..]);
      SkippedAddNothing(cases[1..]);
      var cut := CutAndPad(all, cases);
      var tail := if all[0].verdict.Accepted? then CutAndPad(all[1..], cases[1..]) else AllSkipped(cases[1..]);
      assert cut == [all[0]] + tail;
      assert VerdictsOf(cut)[1..] == VerdictsOf(tail) && VerdictsOf(all)[1..] == VerdictsOf(all[1..]);
    }
  }

  lemma {:induction false} JudgedAreNotSkipped(
    o: Oracle, mode: Mode, flags: CompareFlags.CompareFlags, cases: seq<Case>, s: Settings, i: nat)
    requires i <= |cases| && JudgeFrom(o, mode, flags, cases, s, true, i, false).Done?
    ensures var all := JudgeFrom(o, mode, flags, cases, s, true, i, false).value;
            |all| == |cases| - i && forall j :: 0 <= j < |all| ==> !all[j].verdict.NotRun?
    decreases |cases| - i
  {
    if i < |cases| {
      CasesAreNeverSkipped(o, mode, flags, i, cases[i], s);
      JudgedAreNotSkipped(o, mode, flags, cases, s, i + 1);
    }
  }

  /**
   Lazy judging refines judge-all.  When judge-all succeeds, lazy judging reports the same
   list cut after its first rejected entry and padded with skipped cases, and the same
   verdict of the solution; when lazy judging raises, judge-all raises in the same way.
   */
  lemma LazyRefinesJudgeAll(o: Oracle, p: Problem, cases: seq<Case>, s: Settings)
    ensures var all, lazy := Judged(o, p, cases, s, true), Judged(o, p, cases, s, false);
            && (all.Done? ==>
                  && lazy.Done? && lazy.value.verdict == all.value.verdict
                  && |all.value.testcases| == |cases|
                  && lazy.value.testcases == CutAndPad(all.value.testcases, cases))
            && (lazy.Raised? ==> all == lazy)
  {
    if !p.compileOk || (!p.mode.Default? && !p.buildOk) {
      SkippedAreCut(cases);
    } else {
      var parsed := if p.mode.Default? then CompareFlags.Parse(o.lexicon.read, s.validatorFlags)
                    else CompareFlags.Ok(CompareFlags.DEFAULTS);
      if parsed.Ok? {
        assert cases[0..] == cases;
        LazyCutsFrom(o, p.mode, parsed.flags, cases, s, 0);
        var all := JudgeFrom(o, p.mode, parsed.flags, cases, s, true, 0, false);
        if all.Done? {
          JudgedAreNotSkipped(o, p.mode, parsed.flags, cases, s, 0);
          CutKeepsTheVerdict(all.value, cases);
        }
      }
    }
  }

  lemma SkippedAreCut(cases: seq<Case>)
    ensures CutAndPad(AllSkipped(cases), cases) == AllSkipped(cases)
  {
  }

  // ----- ids

  /** The results are those of the testcases from `i` on, in order. */
  ghost predicate InOrder(results: seq<TestCaseResult>, cases: seq<Case>, i: nat) {
    && i + |results| == |cases|
    && forall j :: 0 <= j < |results| ==> results[j].id == cases[i + j].id && results[j].group == cases[i + j].group
  }

  lemma InOrderCons(r: TestCaseResult, rest: seq<TestCaseResult>, cases: seq<Case>, i: nat)
    requires InOrder(rest, cases, i + 1) && i < |cases| && r.id == cases[i].id && r.group == cases[i].group
    ensures InOrder([r] + rest, cases, i)
  {
    var results := [r] + rest;
    forall j | 0 <= j < |results|
      ensures results[j].id == cases[i + j].id && results[j].group == cases[i + j].group
    {
      if 0 < j { assert results[j] == rest[j - 1]; }
    }
  }

  lemma {:induction false} InOrderFrom(
    o: Oracle, mode: Mode, flags: CompareFlags.CompareFlags, cases: seq<Case>, s: Settings, judgeAll: bool,
    i: nat, stopped: bool)
    requires i <= |cases| && JudgeFrom(o, mode, flags, cases, s, judgeAll, i, stopped).Done?
    ensures InOrder(JudgeFrom(o, mode, flags, cases, s, judgeAll, i, stopped).value, cases, i)
    decreases |cases| - i
  {
    if i < |cases| {
      CasesAreNeverSkipped(o, mode, flags, i, cases[i], s);
      var r := CaseResult(o, mode, flags, i, cases[i], s);
      hide CaseResult;
      var stop := stopped || (!r.value.verdict.Accepted? && !judgeAll);
      InOrderFrom(o, mode, flags, cases, s, judgeAll, i + 1, stop);
      hide InOrder;
      var rest := JudgeFrom(o, mode, flags, cases, s, judgeAll, i + 1, stop).value;
      InOrderCons(if stopped then Skipped(cases[i]) else r.value, rest, cases, i);
    }
  }

  /** Every exit reports every testcase once, in order. */
  lemma EveryExitKeepsTheIds(o: Oracle, p: Problem, cases: seq<Case>, s: Settings, judgeAll: bool)
    requires Judged(o, p, cases, s, judgeAll).Done?
    ensures InOrder(Judged(o, p, cases, s, judgeAll).value.testcases, cases, 0)
  {
    if p.compileOk && (p.mode.Default? || p.buildOk) {
      var parsed := if p.mode.Default? then CompareFlags.Parse(o.lexicon.read, s.validatorFlags)
                    else CompareFlags.Ok(CompareFlags.DEFAULTS);
      InOrderFrom(o, p.mode, parsed.flags, cases, s, judgeAll, 0, false);
    }
  }

  // ----- the exits

  /** A row of a testcase that was not judged. */
  function BlankRow(c: Case): TestCaseResult {
    TestCaseResult(c.id, c.group, NotRun, 0.0, 0.0, 0, 0, [])
  }

  predicate AllBlank(rows: seq<TestCaseResult>, cases: seq<Case>) {
    |rows| == |cases| && forall i :: 0 <= i < |cases| ==> rows[i] == BlankRow(cases[i])
  }

  /** Every way out before the first testcase: a solution that does not compile, a validator
      that cannot be built, flags that cannot be read, and no testcases at all. */
  lemma EarlyExits(o: Oracle, p: Problem, cases: seq<Case>, s: Settings, judgeAll: bool)
    ensures var r := Judged(o, p, cases, s, judgeAll);
            && (!p.compileOk ==>
                  r.Done? && r.value.verdict == CompilerError && AllBlank(r.value.testcases, cases))
            && (p.compileOk && !p.mode.Default? && !p.buildOk ==>
                  r.Done? && r.value.verdict == JudgeError && AllBlank(r.value.testcases, cases))
            && (p.compileOk && p.mode.Default? && CompareFlags.Parse(o.lexicon.read, s.validatorFlags).Err? ==>
                  r == Raised(BadFlags(CompareFlags.Parse(o.lexicon.read, s.validatorFlags).error)))
            && (r.Done? && p.compileOk && cases == [] ==> r.value.verdict == JudgeError)
            && (r.Done? && r.value.verdict.CompilerError? ==> !p.compileOk)
  {
    if p.compileOk && Starts(o, p, s) {
      var flags := if p.mode.Default? then CompareFlags.Parse(o.lexicon.read, s.validatorFlags).flags
                   else CompareFlags.DEFAULTS;
      var rows := JudgeFrom(o, p.mode, flags, cases, s, judgeAll, 0, false);
      if rows.Done? {
        NeverCompilerError(o, p.mode, flags, cases, s, judgeAll, 0, false);
        VerdictIsOneOf(VerdictsOf(rows.value));
      }
    }
  }

  /** Judging gets as far as the testcases. */
  predicate Starts(o: Oracle, p: Problem, s: Settings) {
    && p.compileOk && (p.mode.Default? || p.buildOk)
    && (p.mode.Default? ==> CompareFlags.Parse(o.lexicon.read, s.validatorFlags).Ok?)
  }

  lemma {:induction false} VerdictIsOneOf(verdicts: seq<Verdict>)
    ensures var v := Results.SolutionVerdict(verdicts); v in verdicts || v.JudgeError? || v.Accepted?
    ensures var v := Results.FirstRejection(Results.Ran(verdicts)); v in verdicts || v.Accepted?
  {
    if verdicts != [] {
      VerdictIsOneOf(verdicts[1..]);
      if !verdicts[0].NotRun? { assert Results.Ran(verdicts)[1..] == Results.Ran(verdicts[1..]); }
    }
  }

  lemma {:induction false} NeverCompilerError(
    o: Oracle, mode: Mode, flags: CompareFlags.CompareFlags, cases: seq<Case>, s: Settings, judgeAll: bool,
    i: nat, stopped: bool)
    requires i <= |cases| && JudgeFrom(o, mode, flags, cases, s, judgeAll, i, stopped).Done?
    ensures var rows := JudgeFrom(o, mode, flags, cases, s, judgeAll, i, stopped).value;
            CompilerError !in VerdictsOf(rows)
    decreases |cases| - i
  {
    if i < |cases| {
      CasesAreNeverSkipped(o, mode, flags, i, cases[i], s);
      var r := CaseResult(o, mode, flags, i, cases[i], s);
      hide CaseResult;
      var stop := stopped || (!r.value.verdict.Accepted? && !judgeAll);
      NeverCompilerError(o, mode, flags, cases, s, judgeAll, i + 1, stop);
      var row := if stopped then Skipped(cases[i]) else r.value;
      var rest := JudgeFrom(o, mode, flags, cases, s, judgeAll, i + 1, stop).value;
      assert VerdictsOf([row] + rest) == [row.verdict] + VerdictsOf(rest);
    }
  }

  /** Row `k` is the result of testcase `k`, judged on its own, and it is accepted. */
  ghost predicate AcceptedRow(
    o: Oracle, mode: Mode, flags: CompareFlags.CompareFlags, k: nat, c: Case, s: Settings, row: TestCaseResult)
  {
    CaseResult(o, mode, flags, k, c, s) == Done(row) && row.verdict.Accepted?
  }

  /** The rows are those of the testcases from `i` on, all accepted. */
  ghost predicate AcceptedRows(
    o: Oracle, mode: Mode, flags: CompareFlags.CompareFlags, cases: seq<Case>, s: Settings, i: nat,
    rows: seq<TestCaseResult>)
  {
    && i + |rows| == |cases|
    && forall j :: 0 <= j < |rows| ==> AcceptedRow(o, mode, flags, i + j, cases[i + j], s, rows[j])
  }

  lemma AcceptedRowsCons(
    o: Oracle, mode: Mode, flags: CompareFlags.CompareFlags, cases: seq<Case>, s: Settings, i: nat,
    row: TestCaseResult, rest: seq<TestCaseResult>)
    requires i < |cases| && AcceptedRow(o, mode, flags, i, cases[i], s, row)
    requires AcceptedRows(o, mode, flags, cases, s, i + 1, rest)
    ensures AcceptedRows(o, mode, flags, cases, s, i, [row] + rest)
  {
    hide AcceptedRow;
    var rows := [row] + rest;
    forall j | 0 <= j < |rows| ensures AcceptedRow(o, mode, flags, i + j, cases[i + j], s, rows[j]) {
      if 0 < j { assert AcceptedRow(o, mode, flags, i + 1 + (j - 1), cases[i + 1 + (j - 1)], s, rest[j - 1]); }
    }
  }

  /** No row was rejected. */
  predicate NoneRejected(rows: seq<TestCaseResult>) {
    forall j :: 0 <= j < |rows| ==> rows[j].verdict.NotRun? || rows[j].verdict.Accepted?
  }

  lemma NoneRejectedCons(row: TestCaseResult, rest: seq<TestCaseResult>)
    requires NoneRejected([row] + rest)
    ensures (row.verdict.NotRun? || row.verdict.Accepted?) && NoneRejected(rest)
  {
    var rows := [row] + rest;
    assert rows[0] == row;
    forall j | 0 <= j < |rest| ensures rest[j].verdict.NotRun? || rest[j].verdict.Accepted? {
      assert rows[j + 1] == rest[j];
    }
  }

  lemma {:induction false} AcceptedRowsFrom(
    o: Oracle, mode: Mode, flags: CompareFlags.CompareFlags, cases: seq<Case>, s: Settings, judgeAll: bool, i: nat)
    requires i <= |cases| && JudgeFrom(o, mode, flags, cases, s, judgeAll, i, false).Done?
    requires NoneRejected(JudgeFrom(o, mode, flags, cases, s, judgeAll, i, false).value)
    ensures AcceptedRows(o, mode, flags, cases, s, i, JudgeFrom(o, mode, flags, cases, s, judgeAll, i, false).value)
    decreases |cases| - i
  {
    if i < |cases| {
      CasesAreNeverSkipped(o, mode, flags, i, cases[i], s);
      var row := CaseResult(o, mode, flags, i, cases[i], s).value;
      hide CaseResult, NoneRejected, AcceptedRows;
      var rest := JudgeFrom(o, mode, flags, cases, s, judgeAll, i + 1, !row.verdict.Accepted? && !judgeAll).value;
      NoneRejectedCons(row, rest);
      AcceptedRowsFrom(o, mode, flags, cases, s, judgeAll, i + 1);
      AcceptedRowsCons(o, mode, flags, cases, s, i, row, rest);
    }
  }

  /** An accepted solution compiled, its validator was built, and there were testcases, every
      one of which was run, recorded and accepted: there is no other way to be accepted. */
  lemma AcceptedMeansJudged(o: Oracle, p: Problem, cases: seq<Case>, s: Settings, judgeAll: bool)
    returns (flags: CompareFlags.CompareFlags)
    requires var r := Judged(o, p, cases, s, judgeAll); r.Done? && r.value.verdict.Accepted?
    ensures p.compileOk && (p.mode.Default? || p.buildOk) && cases != []
    ensures p.mode.Default? ==> CompareFlags.Parse(o.lexicon.read, s.validatorFlags) == CompareFlags.Ok(flags)
    ensures AcceptedRows(o, p.mode, flags, cases, s, 0, Judged(o, p, cases, s, judgeAll).value.testcases)
  {
    EarlyExits(o, p, cases, s, judgeAll);
    var rows := Judged(o, p, cases, s, judgeAll).value.testcases;
    flags := if p.mode.Default? then CompareFlags.Parse(o.lexicon.read, s.validatorFlags).flags
             else CompareFlags.DEFAULTS;
    Results.AcceptedExactly(VerdictsOf(rows));
    forall j | 0 <= j < |rows| ensures rows[j].verdict.NotRun? || rows[j].verdict.Accepted? {
      assert VerdictsOf(rows)[j] in VerdictsOf(rows);
    }
    AcceptedRowsFrom(o, p.mode, flags, cases, s, judgeAll, 0);
  }

  // ----- a custom validator that agrees with the comparator

  /** The run ended by itself, within its limits and with exit code 0. */
  ghost predicate CleanRun(m: Results.RunMeasurement, limits: TimeLimits) {
    && !m.timedOut && m.wall <= limits.limit && !m.outputLimitExceeded && !m.oomKilled
    && m.sig == 0 && m.exitCode == 0
  }

  /** The validator exits 42 or 43 exactly as the comparator accepts or rejects, on every
      clean run. */
  ghost predicate Agrees(o: Oracle, flags: CompareFlags.CompareFlags, cases: seq<Case>, s: Settings) {
    forall k: nat :: k < |cases| ==> AgreesOn(o, flags, k, cases[k], s, BatchRunOf(o, k, cases[k], s))
  }

  ghost predicate AgreesOn(
    o: Oracle, flags: CompareFlags.CompareFlags, k: nat, c: Case, s: Settings, run: BatchRun)
  {
    run.Measured? && CleanRun(run.measurement, s.limits) ==> ExitAgrees(o, flags, k, c, s, run.team)
  }

  ghost predicate ExitAgrees(
    o: Oracle, flags: CompareFlags.CompareFlags, k: nat, c: Case, s: Settings, team: Bytes)
  {
    var r := o.validate(k, ValidatorRequestOf(c, team, s));
    !r.timedOut && r.exitCode == if Compared(o, c, team, flags).accepted then 42 else 43
  }

  /** The same settings with other validator flags. */
  ghost predicate SameButFlags(s: Settings, s': Settings) { s' == s.(validatorFlags := s'.validatorFlags) }

  lemma AgreeingCase(
    o: Oracle, flags: CompareFlags.CompareFlags, unused: CompareFlags.CompareFlags, k: nat, cases: seq<Case>,
    s: Settings, s': Settings)
    requires k < |cases| && Agrees(o, flags, cases, s) && SameButFlags(s, s')
    ensures var custom, plain := CaseResult(o, Custom, unused, k, cases[k], s),
                                 CaseResult(o, Default, flags, k, cases[k], s');
            && (custom.Raised? ==> plain == custom)
            && (custom.Done? ==> plain.Done? && plain.value.(message := []) == custom.value.(message := []))
  {
    var run := BatchRunOf(o, k, cases[k], s);
    assert run == BatchRunOf(o, k, cases[k], s');
    assert AgreesOn(o, flags, k, cases[k], s, run);
  }

  lemma {:induction false} AgreeingFrom(
    o: Oracle, flags: CompareFlags.CompareFlags, unused: CompareFlags.CompareFlags, cases: seq<Case>,
    s: Settings, s': Settings, judgeAll: bool, i: nat, stopped: bool)
    requires i <= |cases| && Agrees(o, flags, cases, s) && SameButFlags(s, s')
    ensures var custom, plain := JudgeFrom(o, Custom, unused, cases, s, judgeAll, i, stopped),
                                 JudgeFrom(o, Default, flags, cases, s', judgeAll, i, stopped);
            && (custom.Raised? ==> plain == custom)
            && (custom.Done? ==> plain.Done? && VerdictsOf(plain.value) == VerdictsOf(custom.value))
    decreases |cases| - i
  {
    hide CaseResult, Agrees;
    if i < |cases| {
      AgreeingCase(o, flags, unused, i, cases, s, s');
      var custom := CaseResult(o, Custom, unused, i, cases[i], s);
      if stopped {
        AgreeingFrom(o, flags, unused, cases, s, s', judgeAll, i + 1, true);
      } else if custom.Done? {
        AgreeingFrom(o, flags, unused, cases, s, s', judgeAll, i + 1, !custom.value.verdict.Accepted? && !judgeAll);
      }
    }
  }

  /** A custom problem whose validator agrees with the comparator is judged like the default
      problem with flags `given`, for every testcase sequence, measurement and judge-all
      setting: the same verdict for every testcase and for the solution. */
  lemma AgreeingValidatorJudgesLikeDefault(
    o: Oracle, given: seq<string>, flags: CompareFlags.CompareFlags, compileOk: bool, cases: seq<Case>, s: Settings,
    judgeAll: bool)
    requires CompareFlags.Parse(o.lexicon.read, given) == CompareFlags.Ok(flags)
    requires Agrees(o, flags, cases, s)
    ensures var custom := Judged(o, Problem(Custom, compileOk, true), cases, s, judgeAll);
            var plain := Judged(o, Problem(Default, compileOk, true), cases, s.(validatorFlags := given), judgeAll);
            && (custom.Raised? ==> plain == custom)
            && (custom.Done? ==>
                  && plain.Done? && plain.value.verdict == custom.value.verdict
                  && VerdictsOf(plain.value.testcases) == VerdictsOf(custom.value.testcases))
  {
    AgreeingFrom(o, flags, CompareFlags.DEFAULTS, cases, s, s.(validatorFlags := given), judgeAll, 0, false);
  }

  // ----- leftovers

  /** Two judgings of the same solution in two arbitrary scratch trees: unless a directory
      survived its removal, they end the same way. */
  method LeftoversDoNotMatter(
    o: Oracle, io: ScratchTree, io': ScratchTree, p: Problem, cases: seq<Case>, s: Settings, judgeAll: bool)
    returns (f: Option<Failure>, r: SolutionResult, f': Option<Failure>, r': SolutionResult)
    modifies io, io'
    ensures !io.stuck && !io'.stuck ==>
              f == f' && (f.None? ==> r.verdict == r'.verdict && r.testcases == r'.testcases)
  {
    f, r := JudgeSolution(o, io, p, cases, s, judgeAll);
    f', r' := JudgeSolution(o, io', p, cases, s, judgeAll);
  }

  // ----- whom the validator is asked about

  /** Replacing the validator changes the result only after a clean run. */
  lemma ValidatorAskedOnlyOnCleanRuns(
    o: Oracle, o': Oracle, flags: CompareFlags.CompareFlags, k: nat, c: Case, s: Settings)
    requires o' == o.(validate := o'.validate)
    requires CaseResult(o, Custom, flags, k, c, s) != CaseResult(o', Custom, flags, k, c, s)
    ensures BatchRunOf(o, k, c, s).Measured? && CleanRun(BatchRunOf(o, k, c, s).measurement, s.limits)
  {
    var run := BatchRunOf(o, k, c, s);
    assert run == BatchRunOf(o', k, c, s);
  }
}
