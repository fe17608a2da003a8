/**
 One testcase: `_run_one_testcase`, `_run_interactive_testcase` (src/icpc_verify/judge.py)
 and `run_custom_validator` (src/icpc_verify/validators.py).

 Containers, JSON and text decoding are functions of an `Oracle`.  A container is given
 the number of the testcase, so that two runs of the same program may differ, and
 everything it can see: its arguments and the files of the directories bound into it.
 The functions below never mention the scratch tree; the methods, which work in it,
 return exactly what the functions say.
 */
module Testcase {
  import opened Options
  import opened Rounding
  import opened Verdicts
  import opened TimeLimits
  import opened Scratch
  import Comparator
  import CompareFlags
  import Results
  import Pair = InteractiveBlame

  datatype Case = Case(id: string, group: string, input: Bytes, answer: Bytes)

  datatype BatchRequest = BatchRequest(input: Files, out: Files, hardKill: real, outputLimit: nat, timeout: real)

  datatype BatchResponse = BatchResponse(out: Files, oomKilled: bool, stderr: Bytes)

  datatype PairRequest = PairRequest(
    data: Files, out: Files, feedback: Files, hardKill: real, pairTimeout: real, flags: seq<string>, timeout: real)

  datatype PairResponse = PairResponse(out: Files, feedback: Files, oomKilled: bool, stderr: Bytes)

  datatype ValidatorRequest = ValidatorRequest(data: Files, feedback: Files, flags: seq<string>, timeout: real)

  datatype ValidatorResponse = ValidatorResponse(feedback: Files, timedOut: bool, exitCode: int, stderr: Bytes)

  datatype Oracle = Oracle(
    batch: (nat, BatchRequest) -> BatchResponse,
    pair: (nat, PairRequest) -> PairResponse,
    validate: (nat, ValidatorRequest) -> ValidatorResponse,
    readRun: Bytes -> Option<Results.RunMeasurement>,
    readPair: Bytes -> Option<Pair.Raw>,
    decode: Bytes -> string,
    lexicon: Comparator.Lexicon)

  datatype Settings = Settings(
    limits: TimeLimits, outputLimitMib: nat, memoryMib: nat, validatorFlags: seq<string>)

  const STDERR_KEEP := 8 * 1024
  const JUDGEMESSAGE_CAP := 4096

  function Head(o: Oracle, bytes: Bytes, n: nat): string {
    o.decode(if n <= |bytes| then bytes[..n] else bytes)
  }

  /** A text file, cut to its first `n` bytes; empty when it is not there. */
  function ReadHead(o: Oracle, files: Files, name: string, n: nat): string {
    if name in files then Head(o, files[name], n) else ""
  }

  datatype Note =
    | Run(message: Results.Message)
    | Pair(pairMessage: Pair.Message)
    | NoRecord(detail: string)
    | ContainerOutOfMemory
    | Judgemessage(text: string)
    | SolutionStderr(text: string)
    | ValidatorStderr(text: string)
    | ValidatorTimeout
    | ValidatorCode(code: int, detail: string)

  function RunNotes(m: Results.Message): seq<Note> { if m.NoMessage? then [] else [Run(m)] }

  function PairNotes(m: Pair.Message): seq<Note> { if m.NoMessage? then [] else [Note.Pair(m)] }

  function TextNote(text: string, note: Note): seq<Note> { if text == "" then [] else [note] }

  /** An exception ends the judging. */
  datatype Failure = DirectoryNotFresh | RecordUnreadable | BadFlags(error: CompareFlags.FlagError)

  // ----- batch runs

  datatype BatchRun =
    | NoBatchRecord(detail: string)
    | UnreadableBatchRecord
    | Measured(measurement: Results.RunMeasurement, team: Bytes, stderr: string)

  function BatchRequestOf(case_: Case, s: Settings): BatchRequest {
    BatchRequest(map["tc.in" := case_.input], map[], Milli(s.limits.hardKill),
                 s.outputLimitMib * 1024 * 1024, s.limits.hardKill + 60.0)
  }

  /** What the run of one testcase yields, as a function of the testcase and its container. */
  function BatchRunOf(o: Oracle, k: nat, case_: Case, s: Settings): BatchRun {
    var r := o.batch(k, BatchRequestOf(case_, s));
    if "run.json" !in r.out then NoBatchRecord(Head(o, r.stderr, STDERR_KEEP))
    else
      var raw := o.readRun(r.out["run.json"]);
      if raw.None? then UnreadableBatchRecord
      else Measured(raw.value.(oomKilled := r.oomKilled),
                    if "stdout" in r.out then r.out["stdout"] else [],
                    ReadHead(o, r.out, "stderr", STDERR_KEEP))
  }

  /** In an arbitrary scratch tree: either a directory is not fresh, or the outcome is that
      function, and the output of the team is where the validator will look for it. */
  method RunOneTestcase(o: Oracle, io: ScratchTree, k: nat, case_: Case, s: Settings)
    returns (isNew: bool, run: BatchRun)
    modifies io
    ensures if isNew then io.stuck == old(io.stuck) else io.stuck
    ensures isNew ==> run == BatchRunOf(o, k, case_, s)
    ensures isNew && run.Measured? ==> Out in io.dirs && "stdout" in io.dirs[Out] && io.dirs[Out]["stdout"] == run.team
  {
    run := UnreadableBatchRecord;
    isNew := io.Refresh(In);
    if !isNew { return; }
    isNew := io.Refresh(Out);
    if !isNew { return; }
    io.Put(In, "tc.in", case_.input);
    var request := BatchRequest(io.dirs[In], io.dirs[Out], Milli(s.limits.hardKill),
                                s.outputLimitMib * 1024 * 1024, s.limits.hardKill + 60.0);
    var response := o.batch(k, request);
    io.Replace(Out, response.out);
    if "run.json" !in io.dirs[Out] {
      run := NoBatchRecord(Head(o, response.stderr, STDERR_KEEP));
      return;
    }
    var raw := o.readRun(io.dirs[Out]["run.json"]);
    if raw.None? { return; }
    var measurement := raw.value.(oomKilled := response.oomKilled);
    var stderr := ReadHead(o, io.dirs[Out], "stderr", STDERR_KEEP);
    var team := [];
    if "stdout" in io.dirs[Out] {
      team := io.dirs[Out]["stdout"];
    } else {
      io.Put(Out, "stdout", []);
    }
    run := Measured(measurement, team, stderr);
  }

  // ----- the custom validator

  function ValidatorVerdict(exitCode: int): Verdict {
    if exitCode == 42 then Accepted else if exitCode == 43 then WrongAnswer else JudgeError
  }

  function ValidatorRequestOf(case_: Case, team: Bytes, s: Settings): ValidatorRequest {
    ValidatorRequest(map["tc.in" := case_.input, "tc.ans" := case_.answer, "tc.out" := team], map[],
                     s.validatorFlags, s.limits.hardKill + 30.0)
  }

  function ValidatorOutcome(o: Oracle, k: nat, case_: Case, team: Bytes, s: Settings): (Verdict, seq<Note>) {
    var r := o.validate(k, ValidatorRequestOf(case_, team, s));
    if r.timedOut then (JudgeError, [ValidatorTimeout])
    else
      var verdict := ValidatorVerdict(r.exitCode);
      if verdict.JudgeError? then (verdict, [ValidatorCode(r.exitCode, Head(o, r.stderr, JUDGEMESSAGE_CAP))])
      else
        var text := ReadHead(o, r.feedback, "judgemessage.txt", JUDGEMESSAGE_CAP);
        (verdict, TextNote(text, Judgemessage(text)))
  }

  method RunCustomValidator(o: Oracle, io: ScratchTree, k: nat, case_: Case, s: Settings)
    returns (isNew: bool, outcome: (Verdict, seq<Note>))
    requires Out in io.dirs && "stdout" in io.dirs[Out]
    modifies io
    ensures if isNew then io.stuck == old(io.stuck) else io.stuck
    ensures isNew ==> outcome == ValidatorOutcome(o, k, case_, old(io.dirs[Out]["stdout"]), s)
  {
    outcome := (JudgeError, []);
    isNew := io.Refresh(ValidatorData);
    if !isNew { return; }
    io.Put(ValidatorData, "tc.in", case_.input);
    io.Put(ValidatorData, "tc.ans", case_.answer);
    io.Put(ValidatorData, "tc.out", io.dirs[Out]["stdout"]);
    isNew := io.Refresh(Feedback);
    if !isNew { return; }
    var request := ValidatorRequest(io.dirs[ValidatorData], io.dirs[Feedback],
                                    s.validatorFlags, s.limits.hardKill + 30.0);
    assert request == ValidatorRequestOf(case_, old(io.dirs[Out]["stdout"]), s);
    var response := o.validate(k, request);
    io.Replace(Feedback, response.feedback);
    var text := ReadHead(o, io.dirs[Feedback], "judgemessage.txt", JUDGEMESSAGE_CAP);
    if response.timedOut {
      outcome := (JudgeError, [ValidatorTimeout]);
      return;
    }
    var verdict := ValidatorVerdict(response.exitCode);
    var message := TextNote(text, Judgemessage(text));
    if verdict.JudgeError? {
      message := [ValidatorCode(response.exitCode, Head(o, response.stderr, JUDGEMESSAGE_CAP))];
    }
    outcome := (verdict, message);
  }

  // ----- interactive runs

  datatype PairRun =
    | NoPairRecord(notes: seq<Note>)
    | UnreadablePairRecord
    | Played(raw: Pair.Raw, judgemessage: string, solStderr: string, valStderr: string)

  function PairRequestOf(case_: Case, s: Settings): PairRequest {
    PairRequest(map["tc.in" := case_.input, "tc.ans" := case_.answer], map[], map[],
                Milli(s.limits.hardKill), Milli(s.limits.hardKill + 5.0), s.validatorFlags, s.limits.hardKill + 60.0)
  }

  function PairRunOf(o: Oracle, k: nat, case_: Case, s: Settings): PairRun {
    var r := o.pair(k, PairRequestOf(case_, s));
    if "run.json" !in r.out
    then NoPairRecord([NoRecord(Head(o, r.stderr, STDERR_KEEP))] + if r.oomKilled then [ContainerOutOfMemory] else [])
    else
      var raw := o.readPair(r.out["run.json"]);
      if raw.None? then UnreadablePairRecord
      else Played(raw.value, ReadHead(o, r.feedback, "judgemessage.txt", JUDGEMESSAGE_CAP),
                  ReadHead(o, r.out, "sol.stderr", STDERR_KEEP), ReadHead(o, r.out, "val.stderr", STDERR_KEEP))
  }

  method RunInteractiveTestcase(o: Oracle, io: ScratchTree, k: nat, case_: Case, s: Settings)
    returns (isNew: bool, run: PairRun)
    modifies io
    ensures if isNew then io.stuck == old(io.stuck) else io.stuck
    ensures isNew ==> run == PairRunOf(o, k, case_, s)
  {
    run := UnreadablePairRecord;
    isNew := io.Refresh(InteractiveData);
    if !isNew { return; }
    isNew := io.Refresh(Out);
    if !isNew { return; }
    isNew := io.Refresh(Feedback);
    if !isNew { return; }
    io.Put(InteractiveData, "tc.in", case_.input);
    io.Put(InteractiveData, "tc.ans", case_.answer);
    var request := PairRequest(io.dirs[InteractiveData], io.dirs[Out], io.dirs[Feedback],
                               Milli(s.limits.hardKill), Milli(s.limits.hardKill + 5.0),
                               s.validatorFlags, s.limits.hardKill + 60.0);
    assert request == PairRequestOf(case_, s);
    var response := o.pair(k, request);
    io.Replace(Out, response.out);
    io.Replace(Feedback, response.feedback);
    if "run.json" !in io.dirs[Out] {
      var notes := [NoRecord(Head(o, response.stderr, STDERR_KEEP))];
      if response.oomKilled {
        notes := notes + [ContainerOutOfMemory];
      }
      run := NoPairRecord(notes);
      return;
    }
    var raw := o.readPair(io.dirs[Out]["run.json"]);
    if raw.None? { return; }
    run := Played(raw.value, ReadHead(o, io.dirs[Feedback], "judgemessage.txt", JUDGEMESSAGE_CAP),
                  ReadHead(o, io.dirs[Out], "sol.stderr", STDERR_KEEP),
                  ReadHead(o, io.dirs[Out], "val.stderr", STDERR_KEEP));
  }
}
