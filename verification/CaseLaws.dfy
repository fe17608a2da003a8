/**
 What one testcase is judged to be, written out: from the answer of its container, under the
 exact request that the container was sent, to the verdict, the columns and the notes of its
 row.
 */
module CaseLaws {
  import opened Options
  import opened Rounding
  import opened Verdicts
  import opened Scratch
  import opened Testcase
  import opened Judge
  import opened JudgeLaws
  import Comparator
  import CompareFlags
  import Results
  import Pair = InteractiveBlame

  /** The first `n` bytes as text. */
  function Start(o: Oracle, bytes: Bytes, n: nat): string {
    o.decode(bytes[..if |bytes| < n then |bytes| else n])
  }

  /** The first `n` bytes of a file as text; nothing when it is not there. */
  ghost predicate IsHead(o: Oracle, files: Files, name: string, n: nat, text: string) {
    text == if name in files then Start(o, files[name], n) else ""
  }

  lemma HeadIsHead(o: Oracle, files: Files, name: string, n: nat)
    ensures IsHead(o, files, name, n, ReadHead(o, files, name, n))
  {
    if name in files { assert files[name][..|files[name]|] == files[name]; }
  }

  // ----- batch testcases

  /** The answer of the container: it sees the input and nothing else of the testcase. */
  function Ran(o: Oracle, k: nat, c: Case, s: Settings): BatchResponse {
    o.batch(k, BatchRequest(map["tc.in" := c.input], map[], Milli(s.limits.hardKill),
                            s.outputLimitMib * 1048576, s.limits.hardKill + 60.0))
  }

  /** What the team wrote. */
  function Output(r: BatchResponse): Bytes { if "stdout" in r.out then r.out["stdout"] else [] }

  /** The answer of the validator: it sees the input, the answer and the output. */
  function Asked(o: Oracle, k: nat, c: Case, output: Bytes, s: Settings): ValidatorResponse {
    o.validate(k, ValidatorRequest(map["tc.in" := c.input, "tc.ans" := c.answer, "tc.out" := output], map[],
                                   s.validatorFlags, s.limits.hardKill + 30.0))
  }

  /** The output is right, wrong, or could not be judged. */
  ghost predicate OutputIs(
    o: Oracle, mode: Mode, flags: CompareFlags.CompareFlags, k: nat, c: Case, s: Settings, output: Bytes, v: Verdict)
  {
    if mode.Custom? then
      var r := Asked(o, k, c, output, s);
      match v
      case Accepted => !r.timedOut && r.exitCode == 42
      case WrongAnswer => !r.timedOut && r.exitCode == 43
      case JudgeError => r.timedOut || (r.exitCode != 42 && r.exitCode != 43)
      case _ => false
    else
      var accepted := Comparator.OutputOutcome(o.lexicon, o.decode(output), o.decode(c.answer), flags).accepted;
      match v
      case Accepted => accepted
      case WrongAnswer => !accepted
      case _ => false
  }

  lemma ResponseIsRan(o: Oracle, k: nat, c: Case, s: Settings)
    ensures o.batch(k, BatchRequestOf(c, s)) == Ran(o, k, c, s)
  {
  }

  lemma OutcomeOfOutput(
    o: Oracle, mode: Mode, flags: CompareFlags.CompareFlags, k: nat, c: Case, s: Settings, m: Results.RunMeasurement,
    output: Bytes)
    requires !mode.CustomInteractive?
    requires CleanRun(m, s.limits)
    ensures var r := if mode.Custom? then CustomOutcome(o, k, c, s, m, output)
                     else DefaultOutcome(o, c, s, flags, m, output);
            forall v :: r.0 == v <==> OutputIs(o, mode, flags, k, c, s, output, v)
  {
    assert Asked(o, k, c, output, s) == o.validate(k, ValidatorRequestOf(c, output, s));
  }

  /** The row of a batch testcase, in default and in custom mode, completely. */
  lemma BatchCaseExactly(
    o: Oracle, mode: Mode, flags: CompareFlags.CompareFlags, k: nat, c: Case, s: Settings)
    requires !mode.CustomInteractive?
    ensures var r, run := CaseResult(o, mode, flags, k, c, s), Ran(o, k, c, s);
            if "run.json" !in run.out then
              r.Done? && r.value.verdict == JudgeError
              && r.value.(message := []) == TestCaseResult(c.id, c.group, JudgeError, 0.0, 0.0, 0, 0, [])
            else if o.readRun(run.out["run.json"]).None? then
              r == Raised(RecordUnreadable)
            else
              var m := o.readRun(run.out["run.json"]).value;
              var slow := m.timedOut || s.limits.limit < m.wall;
              var crashed := run.oomKilled || m.sig != 0 || m.exitCode != 0;
              && r.Done? && r.value.id == c.id && r.value.group == c.group
              && r.value.wall == m.wall && r.value.cpu == m.cpu
              && r.value.memKib == m.maxRssKib && r.value.exitCode == m.exitCode
              && if slow then r.value.verdict == TimeLimitExceeded
                 else if m.outputLimitExceeded then r.value.verdict == WrongAnswer
                 else if crashed then r.value.verdict == RunTimeError
                 else OutputIs(o, mode, flags, k, c, s, Output(run), r.value.verdict)
  {
    ResponseIsRan(o, k, c, s);
    var run := BatchRunOf(o, k, c, s);
    if run.Measured? {
      var m := run.measurement;
      if CleanRun(m, s.limits) {
        OutcomeOfOutput(o, mode, flags, k, c, s, m, run.team);
        hide CustomOutcome, DefaultOutcome, OutputIs;
      }
    }
  }

  /** What the validator's outcome quotes. */
  lemma ValidatorNotes(o: Oracle, k: nat, c: Case, s: Settings, output: Bytes, text: string)
    ensures var r, notes := Asked(o, k, c, output, s), ValidatorOutcome(o, k, c, output, s).1;
            var answered := !r.timedOut && (r.exitCode == 42 || r.exitCode == 43);
            && (Judgemessage(text) in notes <==>
                  answered && text != "" && IsHead(o, r.feedback, "judgemessage.txt", 4096, text))
            && (r.timedOut ==> notes == [ValidatorTimeout])
            && (!r.timedOut && !answered ==>
                  notes == [ValidatorCode(r.exitCode, Start(o, r.stderr, 4096))])
            && (answered ==> ValidatorTimeout !in notes)
            && SolutionStderr(text) !in notes
  {
    var r := Asked(o, k, c, output, s);
    assert r == o.validate(k, ValidatorRequestOf(c, output, s));
    HeadIsHead(o, r.feedback, "judgemessage.txt", 4096);
    assert r.stderr[..|r.stderr|] == r.stderr;
  }

  lemma OutcomeNotes(m: Results.Message, text: string)
    ensures SolutionStderr(text) !in RunNotes(m) && Judgemessage(text) !in RunNotes(m)
  {
  }

  /** Whether the validator is asked about the run. */
  ghost predicate IsAsked(o: Oracle, mode: Mode, k: nat, c: Case, s: Settings)
    requires BatchRunOf(o, k, c, s).Measured?
  {
    mode.Custom? && CleanRun(BatchRunOf(o, k, c, s).measurement, s.limits)
  }

  /** The row of a batch testcase quotes the start of the solution's stderr, 8 KiB of it, exactly
      after a crash. */
  lemma StderrQuotedExactly(
    o: Oracle, mode: Mode, flags: CompareFlags.CompareFlags, k: nat, c: Case, s: Settings, text: string)
    requires !mode.CustomInteractive? && BatchRunOf(o, k, c, s).Measured?
    ensures var r := CaseResult(o, mode, flags, k, c, s);
            && r.Done?
            && (SolutionStderr(text) in r.value.message <==>
                  r.value.verdict.RunTimeError? && text != "" && IsHead(o, Ran(o, k, c, s).out, "stderr", 8192, text))
  {
    var run := BatchRunOf(o, k, c, s);
    ResponseIsRan(o, k, c, s);
    HeadIsHead(o, Ran(o, k, c, s).out, "stderr", 8192);
    ValidatorNotes(o, k, c, s, run.team, text);
    hide ValidatorOutcome, IsHead, ReadHead;
  }

  /** And in custom mode it quotes what the validator left, exactly when it was asked: its
      message after an answer, and otherwise its timeout or its exit code. */
  lemma ValidatorQuotedExactly(
    o: Oracle, flags: CompareFlags.CompareFlags, k: nat, c: Case, s: Settings, text: string)
    requires BatchRunOf(o, k, c, s).Measured?
    ensures var r, v := CaseResult(o, Custom, flags, k, c, s), Asked(o, k, c, Output(Ran(o, k, c, s)), s);
            var asked, answered := IsAsked(o, Custom, k, c, s), !v.timedOut && (v.exitCode == 42 || v.exitCode == 43);
            && r.Done?
            && (Judgemessage(text) in r.value.message <==>
                  asked && answered && text != "" && IsHead(o, v.feedback, "judgemessage.txt", 4096, text))
            && (asked && v.timedOut ==> r.value.message == [ValidatorTimeout])
            && (asked && !v.timedOut && !answered ==>
                  r.value.message == [ValidatorCode(v.exitCode, Start(o, v.stderr, 4096))])
  {
    var run := BatchRunOf(o, k, c, s);
    ResponseIsRan(o, k, c, s);
    ValidatorNotes(o, k, c, s, run.team, text);
    ValidatorNeverCrashes(o, k, c, s, run.team);
    hide ValidatorOutcome, IsHead, ReadHead;
  }

  lemma ValidatorNeverCrashes(o: Oracle, k: nat, c: Case, s: Settings, output: Bytes)
    ensures var r, v := Asked(o, k, c, output, s), ValidatorOutcome(o, k, c, output, s).0;
            !v.RunTimeError? && (v.JudgeError? <==> r.timedOut || (r.exitCode != 42 && r.exitCode != 43))
  {
    assert Asked(o, k, c, output, s) == o.validate(k, ValidatorRequestOf(c, output, s));
  }

  /** The solution never sees the answer, and a testcase sees nothing of another. */
  lemma AnswerIsKeptBack(o: Oracle, k: nat, c: Case, c': Case, s: Settings)
    requires c.input == c'.input
    ensures BatchRunOf(o, k, c, s) == BatchRunOf(o, k, c', s)
  {
  }

  // ----- interactive testcases

  /** The answer of the container: it sees the input and the answer. */
  function Played(o: Oracle, k: nat, c: Case, s: Settings): PairResponse {
    o.pair(k, PairRequest(map["tc.in" := c.input, "tc.ans" := c.answer], map[], map[],
                          Milli(s.limits.hardKill), Milli(s.limits.hardKill + 5.0), s.validatorFlags,
                          s.limits.hardKill + 60.0))
  }

  lemma ResponseIsPlayed(o: Oracle, k: nat, c: Case, s: Settings)
    ensures o.pair(k, PairRequestOf(c, s)) == Played(o, k, c, s)
  {
  }

  /** The row of an interactive testcase, completely. */
  lemma InteractiveCaseExactly(o: Oracle, flags: CompareFlags.CompareFlags, k: nat, c: Case, s: Settings)
    ensures var r, run := CaseResult(o, CustomInteractive, flags, k, c, s), Played(o, k, c, s);
            if "run.json" !in run.out then
              r.Done? && r.value.(message := []) == TestCaseResult(c.id, c.group, JudgeError, 0.0, 0.0, 0, 0, [])
            else if o.readPair(run.out["run.json"]).None? then
              r == Raised(RecordUnreadable)
            else
              var raw := o.readPair(run.out["run.json"]).value;
              var sol := raw.solution;
              var slow := sol.timedOut || s.limits.limit < sol.wall;
              var crashed := s.memoryMib * 1024 < sol.maxRssKib || (sol.sig != 0 && sol.sig != 13)
                             || (sol.sig == 0 && sol.exitCode != 0);
              && r.Done? && r.value.id == c.id && r.value.group == c.group
              && r.value.wall == sol.wall && r.value.cpu == sol.cpu
              && r.value.memKib == sol.maxRssKib && r.value.exitCode == sol.exitCode
              && r.value.verdict ==
                 if slow then TimeLimitExceeded
                 else if raw.pairTimedOut then JudgeError
                 else if raw.validatorExit != 42 && raw.validatorExit != 43 then JudgeError
                 else if crashed then RunTimeError
                 else if raw.validatorExit == 42 then Accepted else WrongAnswer
  {
    ResponseIsPlayed(o, k, c, s);
  }

  lemma PlayedNotes(
    c: Case, s: Settings, raw: Pair.Raw, message: string, solStderr: string, valStderr: string, text: string)
    ensures var r := PlayedResult(c, s, raw, message, solStderr, valStderr);
            && (SolutionStderr(text) in r.message <==> r.verdict.RunTimeError? && text == solStderr && text != "")
            && (ValidatorStderr(text) in r.message <==> r.verdict.JudgeError? && text == valStderr && text != "")
            && (Judgemessage(text) in r.message <==> text == message && text != "")
  {
    hide Pair.Classify;
  }

  /** What the row of an interactive testcase quotes: the solution's stderr exactly after a
      crash, the validator's exactly when it is to blame, and the validator's message always. */
  lemma InteractiveNotesExactly(
    o: Oracle, flags: CompareFlags.CompareFlags, k: nat, c: Case, s: Settings, text: string)
    requires PairRunOf(o, k, c, s).Played?
    ensures var r, run := CaseResult(o, CustomInteractive, flags, k, c, s), Played(o, k, c, s);
            && r.Done?
            && (SolutionStderr(text) in r.value.message <==>
                  r.value.verdict.RunTimeError? && text != "" && IsHead(o, run.out, "sol.stderr", 8192, text))
            && (ValidatorStderr(text) in r.value.message <==>
                  r.value.verdict.JudgeError? && text != "" && IsHead(o, run.out, "val.stderr", 8192, text))
            && (Judgemessage(text) in r.value.message <==>
                  text != "" && IsHead(o, run.feedback, "judgemessage.txt", 4096, text))
  {
    var run := Played(o, k, c, s);
    var played := PairRunOf(o, k, c, s);
    ResponseIsPlayed(o, k, c, s);
    HeadIsHead(o, run.out, "sol.stderr", 8192);
    HeadIsHead(o, run.out, "val.stderr", 8192);
    HeadIsHead(o, run.feedback, "judgemessage.txt", 4096);
    PlayedNotes(c, s, played.raw, played.judgemessage, played.solStderr, played.valStderr, text);
    hide PlayedResult, ReadHead;
  }

  /** A container that left no record is reported with its own stderr, and an interactive one
      also with the death of the container by memory. */
  lemma MissingRecordNotes(o: Oracle, mode: Mode, flags: CompareFlags.CompareFlags, k: nat, c: Case, s: Settings)
    ensures var r := CaseResult(o, mode, flags, k, c, s);
            var out := if mode.CustomInteractive? then Played(o, k, c, s).out else Ran(o, k, c, s).out;
            var stderr := if mode.CustomInteractive? then Played(o, k, c, s).stderr else Ran(o, k, c, s).stderr;
            "run.json" !in out ==>
              && r.Done? && r.value.message != []
              && r.value.message[0] == NoRecord(Start(o, stderr, 8192))
              && r.value.message[1..] ==
                 if mode.CustomInteractive? && Played(o, k, c, s).oomKilled then [ContainerOutOfMemory] else []
  {
    ResponseIsRan(o, k, c, s);
    ResponseIsPlayed(o, k, c, s);
    var stderr := if mode.CustomInteractive? then Played(o, k, c, s).stderr else Ran(o, k, c, s).stderr;
    assert stderr[..|stderr|] == stderr;
  }

  /** The row of a batch testcase begins with the reason for its verdict, and an accepted one in
      default mode says nothing. */
  lemma BatchReasonFirst(o: Oracle, mode: Mode, flags: CompareFlags.CompareFlags, k: nat, c: Case, s: Settings)
    requires !mode.CustomInteractive? && BatchRunOf(o, k, c, s).Measured?
    ensures var r, m := CaseResult(o, mode, flags, k, c, s), BatchRunOf(o, k, c, s).measurement;
            && r.Done?
            && var notes := r.value.message;
               if m.timedOut || s.limits.limit < m.wall then
                 notes == [Run(Results.WallOverLimit(m.wall, s.limits.limit))]
               else if m.outputLimitExceeded then notes == [Run(Results.OutputOverLimit)]
               else if m.oomKilled then 0 < |notes| && notes[0] == Run(Results.OutOfMemory)
               else if m.sig != 0 then 0 < |notes| && notes[0] == Run(Results.KilledBySignal(m.sig))
               else if m.exitCode != 0 then 0 < |notes| && notes[0] == Run(Results.ExitCodeNonzero(m.exitCode))
               else if mode.Custom? then true
               else
                 var compared := Compared(o, c, BatchRunOf(o, k, c, s).team, flags);
                 notes == if compared.accepted then [] else [Run(Results.OutputDiffers(compared.message))]
  {
    hide ValidatorOutcome;
  }

  /** The same for an interactive testcase. */
  lemma InteractiveReasonFirst(o: Oracle, flags: CompareFlags.CompareFlags, k: nat, c: Case, s: Settings)
    requires PairRunOf(o, k, c, s).Played?
    ensures var r, raw := CaseResult(o, CustomInteractive, flags, k, c, s), PairRunOf(o, k, c, s).raw;
            && r.Done?
            && var notes, sol := r.value.message, raw.solution;
               if sol.timedOut || s.limits.limit < sol.wall then
                 0 < |notes| && notes[0] == Note.Pair(Pair.WallOverLimit(sol.wall, s.limits.limit))
               else if raw.pairTimedOut then
                 0 < |notes| && notes[0] == Note.Pair(Pair.ValidatorTooSlow(sol.wall, s.limits.limit))
               else if raw.validatorExit != 42 && raw.validatorExit != 43 then
                 0 < |notes| && notes[0] == Note.Pair(Pair.ValidatorExit(raw.validatorExit))
               else if s.memoryMib * 1024 < sol.maxRssKib then
                 0 < |notes| && notes[0] == Note.Pair(Pair.MemoryOverLimit)
               else if sol.sig != 0 && sol.sig != 13 then
                 0 < |notes| && notes[0] == Note.Pair(Pair.KilledBySignal(sol.sig))
               else if sol.sig == 0 && sol.exitCode != 0 then
                 0 < |notes| && notes[0] == Note.Pair(Pair.ExitCodeNonzero(sol.exitCode))
               else forall m :: Note.Pair(m) !in notes
  {
  }
}
