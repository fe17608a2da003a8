# Verification of the icpc_verify judge

`icpc_verify` judges programming-contest solutions: it runs a solution in a container, once per
testcase, measures it, and turns the measurement into a verdict. This project models its decision
making and proves what it promises. There are five parts.

**The two supervisors.** `image/interactive_runner.py` ties a solution and a validator together with
pipes and polls both; `image/runner.py` polls one child while a thread watches the size of its
output. Each is a step relation (`InteractiveMachine`, `BatchMachine`) between the supervisor, the
watcher thread and a world that may let any time pass, end a child, or write a file between any two
system calls. A *run* is any interleaving. `InteractiveRunner` and `BatchRunner` contain the loops as
the programs write them, over mutable fields, and prove that every execution is a run of the machine,
terminates, and reports the record of that run. `InteractiveBlame` and `BatchBlame` put the judge's
parameters in front and the classification behind, and prove who is blamed; `InteractivePunctuality`
says exactly when a validator in time can be blamed; `InteractiveTiming` and
`BatchTiming` bound measurements and total time on a host that answers promptly, and `BatchWatch`
follows the watcher's answer to the verdict. `Pipes` follows the
descriptors of the two pipes through forks and exits, and `WithheldEof` joins it to the blame.

**The judging loop.** `Scratch` is the tree of directories that all testcases reuse, with arbitrary
leftovers. `Testcase` and `Judge` are the methods that work in it; they are proved equal to functions
in which the tree does not occur. `CaseLaws` writes out what one testcase is judged to be, request by
request, and `JudgeLaws` proves the laws of the loop.

**The whole judgement.** `WholeJudgement` joins the first two parts: every container leaves the record
of some run of its supervisor. On any host an accepted solution has earned it: its processes ended by
themselves, well, and within their limits, and their outputs were accepted. Conversely, on a prompt
host with a hard kill beyond the limit, a solution whose processes end a polling period before their
limits gets exactly the verdict that their ends and outputs deserve. The rounding of the record, the
polling period and the calls of the host are the only margins between the two.

**The default comparator.** `CompareFlags`, `Tokens`, `Comparator` and `ComparatorLaws`: flags,
white space, token, exact and tolerance comparison (the default output validator of the Kattis
Problem Package Format, section "Output Validators").

**Limits and CPUs.** `TimeLimits` is the overshoot language and the hard kill, `CpuList` and
`CpuPlan` the kernel's CPU lists and the choice of the judge CPU.

Where the repository's documentation and code disagree, the model follows the code: `README.md:20-21`
of the repository calls every pair timeout a time limit exceeded, while
`src/icpc_verify/judge.py:107-130` blames the validator when the solution itself was in time.

Five results are about reports that are not quite true, each with its exact condition:

* "wall exceeded the limit" is true on every run exactly when the hard kill, rounded to milliseconds,
  lies beyond the limit (`OverLimitClaimIsTrueIff`, for both supervisors). An overshoot under half a
  millisecond can break it, and the spec "0.0004s" does (`ShortOvershootMisreports`); one millisecond
  is always enough.
* A validator that accepted in time and was never killed can be reported as too slow, because the
  pair deadline is tested even in the round that collected the last child. It can have ended at any
  time from the start of the supervisor's clock on, and no earlier (`PunctualValidatorBlamedIff`); on a
  prompt host, at any time within one polling period and five calls of the deadline, and no earlier
  (`PromptValidatorBlamedIff`, for limits of 5 ms and more). It is killed only after it ran past the pair deadline
  (`BlameIsSound`).
* The comment at `image/interactive_runner.py:135-136` expects the end of the solution to reach the
  validator as end-of-file. It does exactly when no descendant of the solution holds the pipe
  (`LeaderGoneHangsUpIff`); otherwise the validator is blamed for the solution's child
  (`BlamedReaderWasKeptWaiting`, `SolutionCanWithholdEof`).
* The output-limit flag is final exactly when the file is already over the limit or no stray writer is
  left at the last check (`FlagIsFinalIff`, `StrayWriterCanSlipThrough`).
* What space-sensitive comparison accepts, or token comparison without float flags, is rejected under
  float flags exactly when the answer has a token that reads as NaN (`ExactRefinesTokens`,
  `FloatModeWidensUnlessNaN`).

## Model

| member | source | states |
|---|---|---|
| InteractiveMachine.RunInv | image/interactive_runner.py:88-143 | on every interleaving: statuses and wait counts agree with the process table, every kill is explained by a flag and preceded by a poll that found the child running at or after its deadline, no child is measured short, rounds stay bounded |
| InteractiveMachine.LateAwaitIsDead | image/interactive_runner.py:141-143 | the late wait for the validator is dead code, for every pair of timeouts |
| InteractiveMachine.PairKillReachableIff | image/interactive_runner.py:121-128 | for every pair of timeouts, the pair deadline can kill the solution if and only if it comes before the hard kill and the solution was launched before its deadline |
| InteractiveMachine.RunRounds | image/interactive_runner.py:97-137 | on every run the loop takes at most the 5 ms rounds up to the pair deadline plus one round per child, counting the sleepless `continue` |
| InteractiveTiming.WallBracketsRunningTime | image/interactive_runner.py:71-118 | the measured wall is never below the true running time, and on a prompt host exceeds it by at most the launch plus one polling period, or the time to reap a killed child |
| InteractiveTiming.RunEndsOnTime | image/interactive_runner.py:95-143 | a finished run on a prompt host ends within a fixed allowance of the pair deadline |
| InteractiveBlame.BlameIsSound | src/icpc_verify/judge.py:118-140 | TLE if and only if the solution timed out or its wall exceeds the limit; killed children ran to their deadlines; a killed child never yields ACCEPTED, WA or RTE; judge_error only when the solution was left alone and in time |
| InteractiveBlame.AnswerVerdictsExactly | src/icpc_verify/judge.py:131-140 | ACCEPTED, WA and RTE with their exact causes: the flags and wall of the record, who was killed, the two statuses and the memory (SIGPIPE forgiven) |
| InteractiveBlame.MessageSaysWhy | src/icpc_verify/judge.py:118-140 | the message is chosen by the cause of the verdict and carries its figures: wall and limit, exit code, signal |
| InteractiveBlame.RecordIsTrue | image/interactive_runner.py:145-157 | every field of the record is true of the two processes: wall, cpu, memory, exit codes, signals, flags |
| InteractiveBlame.HardKillIsPrompt | image/interactive_runner.py:112-119 | on a prompt host no solution, however it behaves, runs longer than the hard kill, 5 ms, eleven calls and the reaping |
| InteractiveBlame.GroupsAreGone | image/interactive_runner.py:139-140 | no member of either process group is left at the end |
| InteractiveBlame.AcceptedMeansWon | src/icpc_verify/judge.py:118-140 | an accepted solution ended by itself, in good health, and ran no longer than the limit up to the rounding of the record; the validator ended by itself with 42, on a prompt host at most three calls after the pair deadline |
| InteractiveBlame.TimelyPairIsJudgedByItsEnd | src/icpc_verify/judge.py:118-140 | on a prompt host, when both processes end a polling period before their limits, each of the four verdicts has its exact cause in how they ended |
| InteractiveBlame.ReapedOnceInBoundedRounds | image/interactive_runner.py:97-133 | each child is waited for successfully exactly once, under the judge's parameters |
| InteractiveBlame.JudgeParamsValid | src/icpc_verify/judge.py:282-285 | the pair timeout never precedes the hard kill, after both are rounded to milliseconds |
| InteractiveBlame.VerdictTracksRunningTime | src/icpc_verify/judge.py:118-130 | a solution that ran past the limit is TLE on every host; one that ended a polling period before it is not, on a prompt host |
| InteractiveBlame.CpuBackstopIsTle | image/interactive_runner.py:63-66 | RLIMIT_CPU cannot fire before the hard kill, so a death by it is TLE and never a crash |
| InteractiveBlame.SlowValidatorWasRunning | src/icpc_verify/judge.py:120-125 | a validator blamed for slowness was running one polling period before the pair deadline, and the solution had ended within the limit |
| InteractiveBlame.GraceWasGiven | src/icpc_verify/judge.py:282-285 | on a prompt host, a validator blamed for slowness outlived the solution by the overshoot and five seconds, up to a polling period and the roundings |
| InteractivePunctuality.PunctualValidatorBlamedIff | image/interactive_runner.py:121-133 | a validator that exits 42 by itself can be blamed for slowness if and only if it ended at or after the start of the clock, for every limit |
| InteractivePunctuality.PromptValidatorBlamedIff | image/interactive_runner.py:97-137 | on a prompt host, if and only if it ended within one polling period and five calls of the pair deadline: the margin is reached, by as many quiet rounds as fit before the last poll |
| InteractivePunctuality.ShortLimitMissesTheMargin | image/interactive_runner.py:97-137 | the margin is not reached for every limit: under a limit of 1 ms, on a host where no call takes time, no poll can fall 4 ms before the pair deadline |
| InteractiveBlame.OverLimitClaimIsTrueIff | src/icpc_verify/judge.py:126-130 | "wall exceeded" is true on all runs if and only if the rounded hard kill lies beyond the limit |
| InteractiveBlame.ShortOvershootMisreports | src/icpc_verify/judge.py:126-130 | for limit 1.0 and the spec "0.0004s" there is a run that reports "wall exceeded" with a wall of exactly the limit |
| InteractiveBlame.OneMillisecondIsEnough | src/icpc_verify/timelimits.py:66 | an overshoot of a millisecond survives the three-decimal rounding |
| InteractiveBlame.HostTimeoutIsNotReached | src/icpc_verify/judge.py:303 | from the call of the container to its return takes less than hard kill + 60 s when start-up, calls, reaping and return are bounded |
| InteractiveRunner.Supervisor.Supervise | image/interactive_runner.py:97-157 | the loop terminates, every execution is a run of the machine, and the record returned is that run's |
| InteractiveRunner.Supervisor.Round | image/interactive_runner.py:98-137 | one round of the loop, with its `continue` and its `break` |
| InteractiveRunner.Supervisor.CollectSolution | image/interactive_runner.py:100-105 | the non-blocking wait for the solution and its wall time are steps of the machine |
| InteractiveRunner.Supervisor.CollectValidator | image/interactive_runner.py:106-110 | the non-blocking wait for the validator is a step of the machine |
| InteractiveRunner.Supervisor.KillSolution | image/interactive_runner.py:112-119 | the hard kill: flag, kill, wait, measure, back to the loop test |
| InteractiveRunner.Supervisor.EndPairSolution | image/interactive_runner.py:121-128 | the pair deadline, solution half |
| InteractiveRunner.Supervisor.EndPairValidator | image/interactive_runner.py:129-133 | the pair deadline, validator half |
| InteractiveRunner.Supervisor.SweepUp | image/interactive_runner.py:139-143 | the last kills and the late wait |
| InteractiveRunner.Supervisor.Report | image/interactive_runner.py:145-157 | the record is complete, is built from the variables of the program, and is the record of the finished run |
| BatchMachine.RunInv | image/runner.py:81-115 | on every interleaving of main loop, watcher and world: the status is collected once, kills are explained by flags, the child is not measured short, the final check is remembered, rounds stay bounded |
| BatchMachine.GrowOnlyHonest | image/runner.py:37-45 | while the output file only grows, neither the watcher nor the flag claims an excess that is not there, and the flag equals the final check |
| BatchMachine.RunRounds | image/runner.py:83-98 | the loop takes at most the 2 ms rounds up to the deadline |
| BatchTiming.WallBracketsRunningTime | image/runner.py:66-100 | the measured wall is never below the true running time, and on a prompt host exceeds it by at most the launch plus one polling period, or the time to reap a killed child |
| BatchTiming.RunEndsOnTime | image/runner.py:82-115 | a run ends soon after the hard kill whatever the watcher thread does |
| BatchBlame.BlameIsSound | src/icpc_verify/results.py:56-77 | TLE if and only if timed out or over the limit; a killed child is TLE or an output-limit WA, never a crash and never compared, and really ran to the hard kill or wrote more than the limit |
| BatchBlame.AnswerVerdictsExactly | src/icpc_verify/results.py:62-77 | ACCEPTED and RTE with their exact causes: the flags and wall of the record, who was killed, the status, the memory flag and the comparator |
| BatchBlame.MessageSaysWhy | src/icpc_verify/results.py:62-77 | the message is chosen by the cause of the verdict and carries its figures |
| BatchBlame.HardKillIsPrompt | image/runner.py:93-97 | on a prompt host no child, however it behaves, runs longer than the hard kill, 2 ms, seven calls and the reaping |
| BatchBlame.GroupIsGone | image/runner.py:106-109 | no member of the child's process group is left when the output is looked at last |
| BatchWatch.AnswerIsActedOn | image/runner.py:88-92 | when the watcher has reported an excess by the time the loop looks, the loop goes no further round, the child is not taken for slow, and the excess is why it is killed |
| BatchWatch.OverflowIsWrongAnswer | image/runner.py:37-115 | when both threads are served promptly, a child whose growing output is over the limit, 52 ms and a few calls before its time limit, gets WA with the output-limit message and runs no longer than that |
| BatchWatch.WatcherIsJoined | image/runner.py:101-102 | a watcher that is served promptly has ended, with its answer, when the record is written |
| BatchBlame.AcceptedMeansEndedWell | src/icpc_verify/results.py:62-77 | an accepted child ended by itself with 0, ran no longer than the limit up to the rounding of the record, and left a file within the output limit |
| BatchBlame.TimelyChildIsJudgedByItsEnd | src/icpc_verify/results.py:62-77 | on a prompt host, when the child ends a polling period before the limit and within the output limit, each verdict has its exact cause in how it ended and what it wrote |
| BatchBlame.ReapedOnceInBoundedRounds | image/runner.py:83-98 | the child is waited for successfully exactly once |
| BatchBlame.OutputFlagIsExact | image/runner.py:111-115 | on a growing file the flag is "over the limit at the last check", and "the finished file is over the limit" when no stray writer was left |
| BatchBlame.FlagIsFinalIff | image/runner.py:106-115 | the flag just written can never disagree with the growing file later if and only if the file is already over the limit or no stray writer is left |
| BatchBlame.StrayWriterCanSlipThrough | image/runner.py:106-115 | a run in which a process that outlives the child pushes the file over the limit unnoticed |
| BatchBlame.VerdictTracksRunningTime | src/icpc_verify/results.py:62-66 | a solution that ran past the limit is TLE on every host; one that ended a polling period before it is not, on a prompt host |
| BatchBlame.CpuBackstopIsTle | image/runner.py:51-55 | RLIMIT_CPU cannot fire before the hard kill, so a death by SIGXCPU is TLE |
| BatchBlame.OverLimitClaimIsTrueIff | src/icpc_verify/judge.py:191-192 | "wall exceeded" is true on all runs if and only if the rounded hard kill lies beyond the limit |
| BatchBlame.HostTimeoutIsNotReached | src/icpc_verify/judge.py:198 | from the call of the container to its return takes less than hard kill + 60 s when start-up, calls, reaping and return are bounded |
| BatchRunner.Supervisor.Supervise | image/runner.py:81-125 | the loop terminates whatever the watcher does, every execution is a run of the machine, and the record returned is that run's |
| BatchRunner.Supervisor.Round | image/runner.py:83-98 | one round of the loop with its three ways out |
| BatchRunner.Supervisor.PollOnce | image/runner.py:84-86 | the non-blocking wait is a step of the machine |
| BatchRunner.Supervisor.KillForOutput | image/runner.py:88-92 | the kill for the output size: flag, kill, wait |
| BatchRunner.Supervisor.KillForTime | image/runner.py:93-98 | the hard kill: flag, kill, wait, or go to sleep |
| BatchRunner.Supervisor.WatcherSteps | image/runner.py:37-45 | each step of the watcher thread is a step of the machine |
| BatchRunner.Supervisor.CheckOutput | image/runner.py:111-115 | the last look at the output size |
| BatchRunner.Supervisor.Report | image/runner.py:117-125 | the record is complete, is built from the variables of the program, and is the record of the finished run |
| Pipes.RunInv | image/interactive_runner.py:47-86 | at every point, through any forks, closes and exits of the children, an end is held only by the supervisor, a child about to execute, or the tree it is meant for |
| Pipes.EndsStayInTheirTrees | image/interactive_runner.py:84-86 | once the four descriptors are closed, whoever holds an end belongs to its tree: the validator reads what the solution writes, and the other way round |
| Pipes.HangsUpIff | image/interactive_runner.py:84-86 | the death of a tree always hangs up an end meant for it if and only if the supervisor closed its own copy |
| Pipes.DeadTreeStaysDead | image/interactive_runner.py:55-86 | a dead tree stays dead, so the hang-up lasts |
| Pipes.LeaderGoneHangsUpIff | image/interactive_runner.py:100-105 | once the process the supervisor waits for is gone, an end hangs up if and only if no descendant of it holds that end |
| WithheldEof.BlamedReaderWasKeptWaiting | image/interactive_runner.py:121-136 | when a validator that reads to end-of-file is blamed for slowness, a descendant of the ended solution held its input open at every moment up to a polling period and its reply before the pair deadline |
| WithheldEof.EofSavesTheReader | image/interactive_runner.py:135-136 | a reader whose input reaches its end in time is never blamed |
| WithheldEof.SolutionCanWithholdEof | image/interactive_runner.py:121-139 | for every limit there is a run in which a solution that ended at once, but left a child with the pipe, gets such a validator blamed |
| Rounding.RoundingIsMonotone | src/icpc_verify/judge.py:192 | the three-decimal and six-decimal roundings keep order |
| Rounding.MicroFixesMilli | image/interactive_runner.py:147 | a three-decimal value survives `round(x, 6)` |
| Rounding.NearestExactly | src/icpc_verify/judge.py:192 | rounding goes to the nearest integer, and from a tie to the even one |
| Rounding.RoundingKeepsPlaces | image/interactive_runner.py:147 | the roundings are to whole thousandths and millionths |
| Processes.CpuBackstop | image/runner.py:53 | the soft CPU limit lies more than one and at most two seconds after the hard kill |
| Testcase.RunOneTestcase | src/icpc_verify/judge.py:158-226 | in a tree with arbitrary leftovers it raises because a directory survived its removal, or returns a function of the testcase and its own container, and the validator will find this run's output |
| Testcase.RunCustomValidator | src/icpc_verify/validators.py:141-187 | in a tree with arbitrary leftovers it raises because a directory survived its removal, or returns a function of the testcase, the team's output and its own container |
| Testcase.RunInteractiveTestcase | src/icpc_verify/judge.py:251-321 | in a tree with arbitrary leftovers it raises because a directory survived its removal, or returns a function of the testcase and its own container |
| Scratch.ScratchTree.Refresh | src/icpc_verify/judge.py:160-162 | a directory that survives its removal is an exception, otherwise it is new and empty; no other directory changes |
| Judge.JudgeBatchCase | src/icpc_verify/judge.py:447-502 | the result of one batch testcase depends on nothing but the testcase and its containers, or an exception |
| Judge.JudgeInteractiveCase | src/icpc_verify/judge.py:398-442 | the same for one interactive testcase |
| Judge.JudgeCases | src/icpc_verify/judge.py:390-504 | the loop appends exactly the results of the specification, with its stop rule |
| Judge.JudgeSolution | src/icpc_verify/judge.py:324-507 | in an arbitrary scratch tree, the whole judging raises because a directory survived its removal, or equals a function in which the tree does not occur |
| CaseLaws.BatchCaseExactly | src/icpc_verify/judge.py:143-226 | the row of a batch testcase, from the literal request to its container and its validator to verdict and columns: missing or unreadable record, slow, too much output, crashed, and else what the comparator says of the output and the answer file, or exit 42, 43 and any other of the validator |
| CaseLaws.InteractiveCaseExactly | src/icpc_verify/judge.py:264-321 | the row of an interactive testcase, from the literal request to verdict and columns |
| CaseLaws.BatchReasonFirst | src/icpc_verify/results.py:62-77 | the row begins with the reason for its verdict, and an accepted one in default mode says nothing |
| CaseLaws.InteractiveReasonFirst | src/icpc_verify/judge.py:422-442 | the row begins with the reason for its verdict |
| CaseLaws.StderrQuotedExactly | src/icpc_verify/judge.py:488-489 | the first 8 KiB of the solution's stderr are quoted exactly after a crash |
| CaseLaws.ValidatorQuotedExactly | src/icpc_verify/validators.py:180-187 | the first 4096 bytes of the validator's message are quoted exactly after an answer, otherwise its timeout or its exit code with its stderr |
| CaseLaws.InteractiveNotesExactly | src/icpc_verify/judge.py:423-429 | which of the validator's message and the two stderr files are quoted, and when |
| CaseLaws.MissingRecordNotes | src/icpc_verify/judge.py:309-316 | a container without a record is reported with its own stderr, an interactive one also with its death by memory |
| CaseLaws.AnswerIsKeptBack | src/icpc_verify/judge.py:167-179 | the run of a batch testcase does not depend on the answer file |
| JudgeLaws.LeftoversDoNotMatter | src/icpc_verify/judge.py:324-507 | two judgings in two arbitrary scratch trees end the same way, unless a directory survived its removal |
| JudgeLaws.LazyRefinesJudgeAll | src/icpc_verify/judge.py:390-506 | the lazy list is the judge-all list cut after its first rejection and padded with not_run, with the same verdict; a lazy exception is also judge-all's |
| JudgeLaws.CasesAreNeverSkipped | src/icpc_verify/judge.py:391-396 | a testcase that is judged has a verdict other than not_run and keeps its id and group |
| JudgeLaws.EveryExitKeepsTheIds | src/icpc_verify/judge.py:358-383 | every exit reports every testcase once, in order |
| JudgeLaws.EarlyExits | src/icpc_verify/judge.py:359-389 | a solution that does not compile is COMPILER_ERROR, and only such; an unbuilt validator is JUDGE_ERROR, both with blank rows; unreadable flags raise; no testcases are JUDGE_ERROR |
| JudgeLaws.AcceptedMeansJudged | src/icpc_verify/judge.py:359-506 | an accepted solution compiled, its validator was built, and there were testcases, every one of which was run, recorded and accepted |
| JudgeLaws.AgreeingValidatorJudgesLikeDefault | src/icpc_verify/judge.py:467-506 | a custom validator that exits 42 or 43 as the comparator accepts or rejects, on clean runs, gives the same verdicts as default mode, for all testcases, measurements and settings |
| JudgeLaws.ValidatorAskedOnlyOnCleanRuns | src/icpc_verify/judge.py:467-482 | replacing the validator changes a result only after a run that ended by itself, within its limits, with exit code 0 |
| WholeJudgement.FirstRejectionDecides | src/icpc_verify/results.py:80-87 | lazily or not, a solution's verdict is that of its first rejected testcase; of the testcases that lazy judging never starts nothing is asked |
| WholeJudgement.BatchFirstRejectionDecides | src/icpc_verify/judge.py:447-506 | in default and in custom mode, under any interleaving of the supervisors, a solution gets the verdict of the first testcase whose run or whose output was rejected |
| WholeJudgement.BatchAcceptedExactly | src/icpc_verify/judge.py:467-487 | accepted if and only if all testcases ran and, on each, the record is clean and the comparator or the validator accepts |
| WholeJudgement.BatchAcceptanceIsEarned | src/icpc_verify/judge.py:447-506 | on any host, an accepted solution has on every testcase a process that exited with 0, was never killed, ran within the limit up to the rounding of the record, kept its memory, and wrote an output that is within its limit and accepted |
| WholeJudgement.TimelyBatchVerdict | src/icpc_verify/judge.py:447-506 | on a prompt host, a solution whose processes end a polling period before the limit gets exactly the verdict that their ends and outputs deserve, in default and in custom mode |
| WholeJudgement.PairFirstRejectionDecides | src/icpc_verify/judge.py:398-445 | an interactive solution gets the verdict of its first rejected run |
| WholeJudgement.InteractiveAcceptedExactly | src/icpc_verify/judge.py:422-445 | accepted if and only if all testcases ran and every record is clean and healthy and its validator exited 42 |
| WholeJudgement.InteractiveAcceptanceIsEarned | src/icpc_verify/judge.py:398-445 | on any host, an accepted solution ended by itself on every testcase, in good health and within the limit up to the rounding of the record, and the validator by itself with 42 |
| WholeJudgement.TimelyInteractiveVerdict | src/icpc_verify/judge.py:398-445 | on a prompt host, a solution all of whose processes end a polling period before their limits gets exactly the verdict that their ends deserve |
| WholeJudgement.BatchRowIsTrue | src/icpc_verify/judge.py:491-502 | the reported wall covers the running time; cpu, memory and exit code, as the program kept them, are the kernel's account of the child |
| WholeJudgement.PairRowIsTrue | src/icpc_verify/judge.py:430-442 | the same for the solution of an interactive testcase |
| WholeJudgement.BatchContainerEndsInTime | src/icpc_verify/judge.py:169-201 | the supervisor runs under the parameters the judge sent, and the container returns before the judge gives up on it |
| WholeJudgement.PairContainerEndsInTime | src/icpc_verify/judge.py:264-307 | the same for an interactive container |
| Results.AcceptedExactly | src/icpc_verify/results.py:80-87 | a solution is accepted if and only if something was judged and everything judged was accepted; when nothing was judged it is JUDGE_ERROR |
| CompareFlags.ParseCompareFlags | src/icpc_verify/compare.py:39-78 | the scan computes the recursive specification, with its three errors |
| CompareFlags.ParsingIsCompositional | src/icpc_verify/compare.py:45-78 | when `a` parses, `a + b` parses exactly as `b` does, to `a` overridden by `b`; otherwise the error is `a`'s unless only a value was missing |
| CompareFlags.FlagsRoundTrip | src/icpc_verify/compare.py:39-78 | parsing a printing of any flags returns them, whenever the texts of the one or two numbers printed are read back |
| CompareFlags.ItemsMean | src/icpc_verify/compare.py:45-78 | what a list of flags means: a bare flag anywhere switches on, the last value of a tolerance wins, and `float_tolerance` is a value of both |
| CompareFlags.ParsesExactly | src/icpc_verify/compare.py:45-78 | every list is either valid items, read as their meaning, or refused at the first word that cannot go on, with the right one of the three errors |
| CompareFlags.BothTolerances | src/icpc_verify/compare.py:64-67 | `float_tolerance` sets both tolerances |
| CompareFlags.EveryPrintingRoundTrips | src/icpc_verify/compare.py:39-78 | any printing that means the flags is read back as them |
| Tokens.SplitOfRender | src/icpc_verify/compare.py:107-108 | splitting any spacing of words gives back the words |
| Tokens.RenderOfSplit | src/icpc_verify/compare.py:107-108 | every text is a spacing of its words |
| Tokens.SplitOfLower | src/icpc_verify/compare.py:117 | splitting commutes with lower-casing |
| Tokens.SplitOfStripped | src/icpc_verify/compare.py:129-130 | splitting ignores trailing newlines |
| Tokens.OnlyNewlinesAreStripped | src/icpc_verify/compare.py:129-130 | nothing but newlines is stripped |
| Comparator.CompareTokens | src/icpc_verify/compare.py:106-125 | the scan returns the outcome at the least mismatching token |
| Comparator.CompareExact | src/icpc_verify/compare.py:128-139 | the scan returns the outcome at the first differing character |
| Comparator.CompareOutput | src/icpc_verify/compare.py:142-147 | one of the two modes, by the flag |
| ComparatorLaws.TokenModeIsPointwise | src/icpc_verify/compare.py:110-125 | accepts if and only if the token sequences match pointwise; otherwise names the least mismatch, or the counts when one extends the other |
| ComparatorLaws.FlagChoosesTheMode | src/icpc_verify/compare.py:142-147 | `space_change_sensitive` accepts if and only if the texts agree character by character up to trailing newlines (and case); otherwise if and only if the words match one by one |
| ComparatorLaws.MessagesAreTrue | src/icpc_verify/compare.py:106-147 | every message of the comparator belongs to its mode and names the first place where the outputs differ, with what was expected and found |
| ComparatorLaws.TokenMatchesExactly | src/icpc_verify/compare.py:85-119 | when two tokens match: under a float flag NaN matches nothing, an infinity only itself, finite numbers within the absolute tolerance or the relative one times the answer unless that is zero; otherwise as texts |
| ComparatorLaws.SameTextExactly | src/icpc_verify/compare.py:117 | texts agree if and only if their characters do, up to case unless it matters |
| ComparatorLaws.RespacingChangesNothing | src/icpc_verify/compare.py:106-125 | verdict and message survive any re-spacing of either output |
| ComparatorLaws.AcceptanceIsAnEquivalence | src/icpc_verify/compare.py:106-147 | without float flags, acceptance is an equivalence relation in both modes |
| ComparatorLaws.ExactDiagnosticsAreTrue | src/icpc_verify/compare.py:133-139 | the reported character is the first difference; lengths are reported if and only if one text is a proper prefix of the other |
| ComparatorLaws.ExactRefinesTokens | src/icpc_verify/compare.py:85-134 | what exact mode accepts, token mode accepts if and only if there is no float comparison of a NaN token |
| ComparatorLaws.RaisingToleranceKeepsAcceptance | src/icpc_verify/compare.py:98-103 | raising either tolerance keeps every acceptance |
| ComparatorLaws.FloatModeWidensUnlessNaN | src/icpc_verify/compare.py:85-119 | turning float mode on keeps an acceptance if and only if the answer has no NaN token |
| ComparatorLaws.AbsoluteErrorsAdd | src/icpc_verify/compare.py:98-100 | acceptance within e1 and then within e2 gives acceptance within e1 + e2, over whole outputs |
| TimeLimits.SpecRoundTrip | src/icpc_verify/timelimits.py:40-66 | every printed spec, with any padding, is read back as its meaning |
| TimeLimits.AcceptsExactlyTheLanguage | src/icpc_verify/timelimits.py:30-64 | the accepted texts are exactly the printed specs |
| TimeLimits.DecimalMeaning | src/icpc_verify/timelimits.py:33-36 | a numeral means its digits shifted by the length of its fraction |
| TimeLimits.TermMeaning | src/icpc_verify/timelimits.py:30-37 | "Xs" is X seconds and "Y%" is Y hundredths of the limit |
| TimeLimits.RefusedExactly | src/icpc_verify/timelimits.py:41-63 | which text is refused for which reason |
| TimeLimits.LimitsAreValid | src/icpc_verify/timelimits.py:40-66 | the hard kill never precedes the limit and is monotone in it |
| TimeLimits.OperandsCommute | src/icpc_verify/timelimits.py:51-64 | the order of the operands does not matter |
| TimeLimits.CombinedBounds | src/icpc_verify/timelimits.py:51-64 | the smaller-of form is at most either term, the larger-of form at least, and both are one of the terms |
| CpuList.ParseCpuList | src/icpc_verify/cpu.py:27-37 | the loop computes the specification, including the failing number |
| CpuList.PrintedListIsRead | src/icpc_verify/cpu.py:27-37 | any printed list is read as sorted and as the multiset union of its ranges |
| CpuList.CpuListRoundTrip | src/icpc_verify/cpu.py:27-37 | any mix of numbers and ranges printed from an increasing list is read back as that list |
| CpuList.ParsesExactly | src/icpc_verify/cpu.py:27-37 | any text: refused if and only if one of its parts cannot be read, otherwise the sorted numbers that its parts name; empty parts name nothing |
| CpuPlan.CoresAscend | src/icpc_verify/cpu.py:85-86 | the distinct sibling lists are sorted as tuples |
| CpuPlan.LastCoreStartsHighest | src/icpc_verify/cpu.py:85-86 | on a partitioned topology the last core has the largest first thread |
| CpuPlan.AutomaticPlanIsSafe | src/icpc_verify/cpu.py:85-114 | never uses or offlines CPU 0, never offlines the judge CPU, leaves every other core alone; takes exactly the judge's siblings offline if asked to and nothing otherwise; isolated if and only if nothing of its core is left beside it, if and only if there is no warning |
| CpuPlan.OtherPlansAreModest | src/icpc_verify/cpu.py:72-98 | a requested CPU or a single core is never isolated, nothing goes offline, and the warning says which; a single core gives its largest thread; no topology or an unknown CPU gives no plan |

## Left out

- Clocks, CPU times and tolerances are reals: IEEE 754 rounding of `time.monotonic`, of sums and of
  differences is not modelled; NaN and the infinities are. The decimal roundings of the command line
  and of the record are modelled exactly.
- Text: white space, lower-casing per character and the reading of a number are parameters;
  multi-character lower-casing, Unicode digits in `\d` and surrogateescape decoding are not modelled.
- Containers, subprocesses, JSON and the file system are environment steps (supervisors) or functions
  of an `Oracle` (judging loop). What a container sees beside its directories and arguments, such as
  the compiled program in the read-only work directory, is part of its function.
- A process group is its leader and a flag for any further members, which die when the group is killed;
  how many there are, and the reuse of a pid after it was reaped, are not modelled. In `BatchMachine` all
  writers of the output file outside the group are the single flag `stray`. `WithheldEof` does not couple
  the kill of a group to the exits of its descendants: it is about runs in which the solution is not
  killed.
- Passing descriptors other than by `fork` (sockets, `/proc`) is not part of `Pipes`.
- BatchRunner.Supervisor.WatcherSteps: the thread `watch_output_size` is one step at a time, at any
  point of the main loop, rather than a loop of its own, because it ends only through the event that
  the main loop sets.
- InteractiveRunner.Supervisor.Round: the body of the `while` loop is a method; its `break` is the
  result `over` and its `continue` a `return`. BatchRunner.Supervisor.Round is the same for the batch
  loop.
- InteractiveBlame.CpuBackstopIsTle and BatchBlame.CpuBackstopIsTle assume that CPU time does not
  exceed the time the process ran, which holds for a container pinned to one CPU.
- InteractiveTiming.WallBracketsRunningTime and the other timing results are upper bounds under a
  named host assumption (`Prompt`); lower bounds, blame and the exact verdicts hold on every host.
- InteractivePunctuality.PromptValidatorBlamedIff is for limits of at least one polling period (5 ms):
  on a host without delays the polls come in fixed steps from the launch, and under a shorter limit
  the launch cannot always be placed so that one of them falls on the margin
  (`ShortLimitMissesTheMargin`); the "no earlier" half holds for every limit.
- Judge.JudgeCases: the three textual stop rules of the source are one rule, stop after a result that
  is not accepted unless everything is judged; judge_error results are covered by it.
- ComparatorLaws.AbsoluteErrorsAdd is for finite non-negative tolerances with no relative tolerance.
- Compiling, building and staging the solution and the validator enter as ok or not ok.
- Wording and layout of messages, `compile_log`, names and warnings of a solution result: messages are
  lists of typed notes.
- `matches_expectation`, `measure_machine_factor`, `read_topology`, `apply_cpu_plan`, sandbox
  arguments, configuration, test data discovery, the command line and the exit-code tables: each is
  short and only easy statements can be made about it.
- The trust model of interactive containers is not a correctness property of the code.
