/** The verdicts of src/icpc_verify/verdicts.py. */
module Verdicts {
  datatype Verdict =
    | Accepted | WrongAnswer | TimeLimitExceeded | RunTimeError | CompilerError | JudgeError | NotRun
}
