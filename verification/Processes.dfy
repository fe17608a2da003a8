/**
 Child processes as `fork`, `wait4` and `killpg` show them to their parent
 (POSIX.1-2017, System Interfaces).  A child runs, ends as a zombie that keeps
 its status, and is reaped once.  `killed` is history: it records that the
 parent sent SIGKILL while the child was still running.
 */
module Processes {

  type SignalNumber = n: nat | 0 < n < 128 witness 9

  const SIGPIPE: SignalNumber := 13

  datatype Status = Exited(code: nat) | Signaled(sig: SignalNumber)

  datatype Usage = Usage(cpu: real, maxRssKib: nat)

  datatype Process =
    | Running(killed: bool)
    | Zombie(status: Status, usage: Usage, at: real, killed: bool)
    | Reaped(status: Status, usage: Usage, at: real, killed: bool)

  /** What the environment may do to a child between two instants. */
  ghost predicate Evolves(p: Process, p': Process, from: real, to: real) {
    || p' == p
    || (p.Running? && p'.Zombie? && p'.killed == p.killed && from <= p'.at <= to)
  }

  /** SIGKILL to the child's group: a child that already ended keeps its status. */
  function Kill(p: Process): Process {
    if p.Running? then Running(true) else p
  }

  function Reap(p: Process): Process
    requires p.Zombie?
  {
    Reaped(p.status, p.usage, p.at, p.killed)
  }

  /** How promptly a host answers: a system call takes at most `delay` seconds, and a wait
      for a killed child at most `reap`. */
  datatype Host = Host(delay: real, reap: real) {
    ghost predicate Valid() { 0.0 <= delay && 0.0 <= reap }
  }

  /** `exit_code` of a result record: -1 stands for a death by signal. */
  function ExitCode(s: Status): int {
    if s.Exited? then s.code else -1
  }

  /** `signal` of a result record: 0 stands for a normal exit. */
  function TermSignal(s: Status): nat {
    if s.Signaled? then s.sig else 0
  }

  /** The soft RLIMIT_CPU of a solution, in seconds of CPU time. */
  function CpuBackstop(hardKill: real): (seconds: int)
    ensures hardKill + 1.0 < seconds as real <= hardKill + 2.0
  {
    hardKill.Floor + 2
  }
}
