/**
 src/icpc_verify/results.py: from the measurement of one run to its verdict, and from
 the verdicts of the testcases to the verdict of the solution.
 */
module Results {
  import Comparator
  import opened TimeLimits
  import opened Verdicts

  datatype RunMeasurement = RunMeasurement(
    wall: real, cpu: real, maxRssKib: nat, exitCode: int, sig: nat,
    timedOut: bool, outputLimitExceeded: bool, oomKilled: bool)

  datatype Message =
    | NoMessage
    | WallOverLimit(wall: real, limit: real)
    | OutputOverLimit
    | OutOfMemory
    | KilledBySignal(sig: nat)
    | ExitCodeNonzero(code: int)
    | OutputDiffers(detail: Comparator.Message)

  function ClassifyRun(m: RunMeasurement, limits: TimeLimits, compareOk: bool, compareMessage: Comparator.Message)
    : (Verdict, Message)
  {
    if m.timedOut || limits.limit < m.wall then (TimeLimitExceeded, WallOverLimit(m.wall, limits.limit))
    else if m.outputLimitExceeded then (WrongAnswer, OutputOverLimit)
    else if m.oomKilled then (RunTimeError, OutOfMemory)
    else if m.sig != 0 then (RunTimeError, KilledBySignal(m.sig))
    else if m.exitCode != 0 then (RunTimeError, ExitCodeNonzero(m.exitCode))
    else if !compareOk then (WrongAnswer, OutputDiffers(compareMessage))
    else (Accepted, NoMessage)
  }

  // ----- the verdict of a solution

  /** The verdicts of the testcases that were judged. */
  function Ran(verdicts: seq<Verdict>): seq<Verdict> {
    if verdicts == [] then []
    else if verdicts[0].NotRun? then Ran(verdicts[1..])
    else [verdicts[0]] + Ran(verdicts[1..])
  }

  function FirstRejection(verdicts: seq<Verdict>): Verdict {
    if verdicts == [] then Accepted
    else if !verdicts[0].Accepted? then verdicts[0]
    else FirstRejection(verdicts[1..])
  }

  function SolutionVerdict(verdicts: seq<Verdict>): Verdict {
    var judged := Ran(verdicts);
    if judged == [] then JudgeError else FirstRejection(judged)
  }

  /** A solution is accepted exactly when something was judged and everything judged was. */
  lemma {:induction false} AcceptedExactly(verdicts: seq<Verdict>)
    ensures FirstRejection(Ran(verdicts)).Accepted? <==> forall v :: v in verdicts ==> v.NotRun? || v.Accepted?
    ensures Ran(verdicts) == [] <==> forall v :: v in verdicts ==> v.NotRun?
    ensures (forall v :: v in verdicts ==> v.NotRun?) ==> SolutionVerdict(verdicts) == JudgeError
    ensures SolutionVerdict(verdicts).Accepted?
            <==> Accepted in verdicts && forall v :: v in verdicts ==> v.NotRun? || v.Accepted?
  {
    if verdicts != [] {
      AcceptedExactly(verdicts[1..]);
      assert forall v :: v in verdicts <==> v == verdicts[0] || v in verdicts[1..];
      if !verdicts[0].NotRun? {
        assert Ran(verdicts)[1..] == Ran(verdicts[1..]);
      }
    }
  }
}
