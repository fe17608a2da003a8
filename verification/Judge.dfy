/**
 `judge_solution` of src/icpc_verify/judge.py: the loop over the testcases with its three
 validation modes, its stop rules and its early exits.
 */
module Judge {
  import opened Options
  import opened Verdicts
  import opened Scratch
  import opened Testcase
  import Comparator
  import CompareFlags
  import Results
  import Pair = InteractiveBlame

  datatype Mode = Default | Custom | CustomInteractive

  /** `compileOk` and `buildOk` are the outcomes of compiling the solution and of building
      the validator. */
  datatype Problem = Problem(mode: Mode, compileOk: bool, buildOk: bool)

  datatype TestCaseResult = TestCaseResult(
    id: string, group: string, verdict: Verdict, wall: real, cpu: real, memKib: nat, exitCode: int, message: seq<Note>)

  function Skipped(c: Case): TestCaseResult { TestCaseResult(c.id, c.group, NotRun, 0.0, 0.0, 0, 0, []) }

  function Broken(c: Case, notes: seq<Note>): TestCaseResult {
    TestCaseResult(c.id, c.group, JudgeError, 0.0, 0.0, 0, 0, notes)
  }

  datatype Attempt<T> = Done(value: T) | Raised(failure: Failure)

  // ----- one testcase in each mode

  function Measure(c: Case, m: Results.RunMeasurement, stderr: string, outcome: (Verdict, seq<Note>)): TestCaseResult {
    TestCaseResult(c.id, c.group, outcome.0, m.wall, m.cpu, m.maxRssKib, m.exitCode,
                   outcome.1 + if outcome.0.RunTimeError? then TextNote(stderr, SolutionStderr(stderr)) else [])
  }

  function Compared(o: Oracle, c: Case, team: Bytes, flags: CompareFlags.CompareFlags): Comparator.Outcome {
    Comparator.OutputOutcome(o.lexicon, o.decode(team), o.decode(c.answer), flags)
  }

  function WithNotes(r: (Verdict, Results.Message)): (Verdict, seq<Note>) { (r.0, RunNotes(r.1)) }

  /** Default mode: the comparator's answer is one input of the classification. */
  function DefaultOutcome(
    o: Oracle, c: Case, s: Settings, flags: CompareFlags.CompareFlags, m: Results.RunMeasurement, team: Bytes)
    : (Verdict, seq<Note>)
  {
    var compared := Compared(o, c, team, flags);
    WithNotes(Results.ClassifyRun(m, s.limits, compared.accepted, compared.message))
  }

  /** Custom mode: the health of the run comes first, and the validator is asked only then. */
  function CustomOutcome(o: Oracle, k: nat, c: Case, s: Settings, m: Results.RunMeasurement, team: Bytes)
    : (Verdict, seq<Note>)
  {
    var health := Results.ClassifyRun(m, s.limits, true, Comparator.NoMessage);
    if health.0.Accepted? then ValidatorOutcome(o, k, c, team, s) else WithNotes(health)
  }

  function PlayedResult(c: Case, s: Settings, raw: Pair.Raw, text: string, solStderr: string, valStderr: string)
    : TestCaseResult
  {
    var outcome := Pair.Classify(raw, s.limits, s.memoryMib);
    TestCaseResult(
      c.id, c.group, outcome.0, raw.solution.wall, raw.solution.cpu, raw.solution.maxRssKib, raw.solution.exitCode,
      PairNotes(outcome.1) + TextNote(text, Judgemessage(text))
      + (if outcome.0.RunTimeError? then TextNote(solStderr, SolutionStderr(solStderr)) else [])
      + (if outcome.0.JudgeError? then TextNote(valStderr, ValidatorStderr(valStderr)) else []))
  }

  /** The result of testcase number `k`: nothing else enters it. */
  function CaseResult(o: Oracle, mode: Mode, flags: CompareFlags.CompareFlags, k: nat, c: Case, s: Settings)
    : Attempt<TestCaseResult>
  {
    if mode.CustomInteractive? then
      match PairRunOf(o, k, c, s)
      case NoPairRecord(notes) => Done(Broken(c, notes))
      case UnreadablePairRecord => Raised(RecordUnreadable)
      case Played(raw, text, solStderr, valStderr) => Done(PlayedResult(c, s, raw, text, solStderr, valStderr))
    else
      match BatchRunOf(o, k, c, s)
      case NoBatchRecord(detail) => Done(Broken(c, [NoRecord(detail)]))
      case UnreadableBatchRecord => Raised(RecordUnreadable)
      case Measured(m, team, stderr) =>
        Done(Measure(c, m, stderr,
                     if mode.Custom? then CustomOutcome(o, k, c, s, m, team)
                     else DefaultOutcome(o, c, s, flags, m, team)))
  }

  // ----- all testcases

  function Cons(r: TestCaseResult, rest: Attempt<seq<TestCaseResult>>): Attempt<seq<TestCaseResult>> {
    if rest.Done? then Done([r] + rest.value) else rest
  }

  /** The results from testcase `i` on.  One stop rule for all modes: stop after the first
      result that is not accepted, unless everything is to be judged. */
  function JudgeFrom(
    o: Oracle, mode: Mode, flags: CompareFlags.CompareFlags, cases: seq<Case>, s: Settings, judgeAll: bool,
    i: nat, stopped: bool): Attempt<seq<TestCaseResult>>
    requires i <= |cases|
    decreases |cases| - i
  {
    if i == |cases| then Done([])
    else if stopped then Cons(Skipped(cases[i]), JudgeFrom(o, mode, flags, cases, s, judgeAll, i + 1, true))
    else
      var r := CaseResult(o, mode, flags, i, cases[i], s);
      if r.Raised? then Raised(r.failure)
      else
        Cons(r.value,
             JudgeFrom(o, mode, flags, cases, s, judgeAll, i + 1, !r.value.verdict.Accepted? && !judgeAll))
  }

  function AllSkipped(cases: seq<Case>): (r: seq<TestCaseResult>)
    ensures |r| == |cases| && forall i :: 0 <= i < |cases| ==> r[i] == Skipped(cases[i])
  {
    if cases == [] then [] else [Skipped(cases[0])] + AllSkipped(cases[1..])
  }

  function VerdictsOf(results: seq<TestCaseResult>): (r: seq<Verdict>)
    ensures |r| == |results| && forall i :: 0 <= i < |results| ==> r[i] == results[i].verdict
  {
    if results == [] then [] else [results[0].verdict] + VerdictsOf(results[1..])
  }

  datatype Report = Report(verdict: Verdict, testcases: seq<TestCaseResult>)

  /** What `judge_solution` returns, as a function of the problem, the testcases and the
      containers: the scratch tree does not enter. */
  function Judged(o: Oracle, p: Problem, cases: seq<Case>, s: Settings, judgeAll: bool): Attempt<Report> {
    if !p.compileOk then Done(Report(CompilerError, AllSkipped(cases)))
    else if !p.mode.Default? && !p.buildOk then Done(Report(JudgeError, AllSkipped(cases)))
    else
      var parsed := if p.mode.Default? then CompareFlags.Parse(o.lexicon.read, s.validatorFlags)
                    else CompareFlags.Ok(CompareFlags.DEFAULTS);
      if parsed.Err? then Raised(BadFlags(parsed.error))
      else
        var results := JudgeFrom(o, p.mode, parsed.flags, cases, s, judgeAll, 0, false);
        if results.Raised? then Raised(results.failure)
        else Done(Report(Results.SolutionVerdict(VerdictsOf(results.value)), results.value))
  }

  // ----- the program

  class SolutionResult {
    var verdict: Verdict
    var testcases: seq<TestCaseResult>

    constructor ()
      ensures verdict == JudgeError && testcases == []
    {
      verdict, testcases := JudgeError, [];
    }
  }

  /** One testcase that is not interactive; `failure` stands for an exception. */
  method JudgeBatchCase(
    o: Oracle, io: ScratchTree, custom: bool, flags: CompareFlags.CompareFlags, k: nat, c: Case, s: Settings)
    returns (failure: Option<Failure>, r: TestCaseResult)
    modifies io
    ensures if failure == Some(DirectoryNotFresh) then io.stuck else io.stuck == old(io.stuck)
    ensures failure == Some(DirectoryNotFresh)
            || CaseResult(o, if custom then Custom else Default, flags, k, c, s)
               == (if failure.Some? then Raised(failure.value) else Done(r))
  {
    r := Skipped(c);
    var isNew, run := RunOneTestcase(o, io, k, c, s);
    if !isNew {
      return Some(DirectoryNotFresh), r;
    }
    match run {
      case UnreadableBatchRecord =>
        return Some(RecordUnreadable), r;
      case NoBatchRecord(detail) =>
        return None, Broken(c, [NoRecord(detail)]);
      case Measured(m, team, stderr) =>
        var outcome;
        if custom {
          var health := Results.ClassifyRun(m, s.limits, true, Comparator.NoMessage);
          outcome := WithNotes(health);
          if health.0.Accepted? {
            isNew, outcome := RunCustomValidator(o, io, k, c, s);
            if !isNew {
              return Some(DirectoryNotFresh), r;
            }
          }
        } else {
          var compared := Comparator.CompareOutput(o.lexicon, o.decode(team), o.decode(c.answer), flags);
          outcome := WithNotes(Results.ClassifyRun(m, s.limits, compared.accepted, compared.message));
        }
        var notes := outcome.1;
        if stderr != "" && outcome.0.RunTimeError? {
          notes := notes + [SolutionStderr(stderr)];
        }
        assert notes == outcome.1 + if outcome.0.RunTimeError? then TextNote(stderr, SolutionStderr(stderr)) else [];
        r := TestCaseResult(c.id, c.group, outcome.0, m.wall, m.cpu, m.maxRssKib, m.exitCode, notes);
        return None, r;
    }
  }

  method JudgeInteractiveCase(
    o: Oracle, io: ScratchTree, flags: CompareFlags.CompareFlags, k: nat, c: Case, s: Settings)
    returns (failure: Option<Failure>, r: TestCaseResult)
    modifies io
    ensures if failure == Some(DirectoryNotFresh) then io.stuck else io.stuck == old(io.stuck)
    ensures failure == Some(DirectoryNotFresh)
            || CaseResult(o, CustomInteractive, flags, k, c, s)
               == (if failure.Some? then Raised(failure.value) else Done(r))
  {
    r := Skipped(c);
    var isNew, run := RunInteractiveTestcase(o, io, k, c, s);
    if !isNew {
      return Some(DirectoryNotFresh), r;
    }
    match run {
      case UnreadablePairRecord =>
        return Some(RecordUnreadable), r;
      case NoPairRecord(notes) =>
        return None, Broken(c, notes);
      case Played(raw, text, solStderr, valStderr) =>
        var outcome := Pair.Classify(raw, s.limits, s.memoryMib);
        var notes := PairNotes(outcome.1) + TextNote(text, Judgemessage(text));
        if outcome.0.RunTimeError? && solStderr != "" {
          notes := notes + [SolutionStderr(solStderr)];
        }
        if outcome.0.JudgeError? && valStderr != "" {
          notes := notes + [ValidatorStderr(valStderr)];
        }
        assert notes == PlayedResult(c, s, raw, text, solStderr, valStderr).message;
        r := TestCaseResult(c.id, c.group, outcome.0, raw.solution.wall, raw.solution.cpu,
                            raw.solution.maxRssKib, raw.solution.exitCode, notes);
        return None, r;
    }
  }

  /** `results` followed by whatever the rest of the loop yields. */
  ghost function After(results: seq<TestCaseResult>, rest: Attempt<seq<TestCaseResult>>): Attempt<seq<TestCaseResult>> {
    if rest.Done? then Done(results + rest.value) else rest
  }

  lemma AfterNothing(rest: Attempt<seq<TestCaseResult>>)
    ensures After([], rest) == rest
  {
    if rest.Done? { assert [] + rest.value == rest.value; }
  }

  lemma AfterOneMore(results: seq<TestCaseResult>, r: TestCaseResult, rest: Attempt<seq<TestCaseResult>>)
    ensures After(results, Cons(r, rest)) == After(results + [r], rest)
  {
    if rest.Done? { assert results + ([r] + rest.value) == results + [r] + rest.value; }
  }

  /** One turn of the loop: a result, or an exception. */
  method JudgeCase(
    o: Oracle, io: ScratchTree, mode: Mode, flags: CompareFlags.CompareFlags, k: nat, c: Case, s: Settings)
    returns (failure: Option<Failure>, r: TestCaseResult)
    modifies io
    ensures if failure == Some(DirectoryNotFresh) then io.stuck else io.stuck == old(io.stuck)
    ensures failure == Some(DirectoryNotFresh)
            || CaseResult(o, mode, flags, k, c, s) == (if failure.Some? then Raised(failure.value) else Done(r))
  {
    if mode.CustomInteractive? {
      failure, r := JudgeInteractiveCase(o, io, flags, k, c, s);
    } else {
      failure, r := JudgeBatchCase(o, io, mode.Custom?, flags, k, c, s);
    }
  }

  /** The loop over the testcases, appending to `result`. */
  method JudgeCases(
    o: Oracle, io: ScratchTree, mode: Mode, flags: CompareFlags.CompareFlags, cases: seq<Case>, s: Settings,
    judgeAll: bool, result: SolutionResult)
    returns (failure: Option<Failure>)
    requires result.testcases == []
    modifies io, result`testcases
    ensures if failure == Some(DirectoryNotFresh) then io.stuck else io.stuck == old(io.stuck)
    ensures failure == Some(DirectoryNotFresh)
            || JudgeFrom(o, mode, flags, cases, s, judgeAll, 0, false)
               == (if failure.Some? then Raised(failure.value) else Done(result.testcases))
  {
    var stopped := false;
    failure := None;
    ghost var all := JudgeFrom(o, mode, flags, cases, s, judgeAll, 0, false);
    AfterNothing(all);
    for i := 0 to |cases|
      invariant failure == None && io.stuck == old(io.stuck)
      invariant all == After(result.testcases, JudgeFrom(o, mode, flags, cases, s, judgeAll, i, stopped))
    {
      var r := Skipped(cases[i]);
      var stop := stopped;
      if !stopped {
        failure, r := JudgeCase(o, io, mode, flags, i, cases[i], s);
        if failure.Some? { return; }
        stop := !r.verdict.Accepted? && !judgeAll;
      }
      AfterOneMore(result.testcases, r, JudgeFrom(o, mode, flags, cases, s, judgeAll, i + 1, stop));
      result.testcases := result.testcases + [r];
      stopped := stop;
    }
    assert result.testcases + [] == result.testcases;
  }

  /**
   The judging of a solution in an arbitrary scratch tree.  It raises because a directory
   survived its removal, or no directory did and it does exactly what `Judged` says: no
   testcase can see what an earlier one left behind.
   */
  method JudgeSolution(
    o: Oracle, io: ScratchTree, p: Problem, cases: seq<Case>, s: Settings, judgeAll: bool)
    returns (failure: Option<Failure>, result: SolutionResult)
    modifies io
    ensures fresh(result)
    ensures if failure == Some(DirectoryNotFresh) then io.stuck else io.stuck == old(io.stuck)
    ensures failure == Some(DirectoryNotFresh)
            || Judged(o, p, cases, s, judgeAll)
               == (if failure.Some? then Raised(failure.value)
                   else Done(Report(result.verdict, result.testcases)))
  {
    result := new SolutionResult();
    failure := None;
    if !p.compileOk {
      result.verdict := CompilerError;
      result.testcases := AllSkipped(cases);
      return;
    }
    if !p.mode.Default? && !p.buildOk {
      result.testcases := AllSkipped(cases);
      return;
    }
    var flags := CompareFlags.DEFAULTS;
    if p.mode.Default? {
      var parsed := CompareFlags.ParseCompareFlags(o.lexicon.read, s.validatorFlags);
      if parsed.Err? {
        failure := Some(BadFlags(parsed.error));
        return;
      }
      flags := parsed.flags;
    }
    failure := JudgeCases(o, io, p.mode, flags, cases, s, judgeAll, result);
    if failure.None? {
      result.verdict := Results.SolutionVerdict(VerdictsOf(result.testcases));
    }
  }
}
