/**
 Who holds which end of the two pipes (image/interactive_runner.py:47-86).

 The supervisor opens both pipes, launches the validator and the solution (each child
 keeps the two ends it was given and loses the rest when it executes its program,
 PEP 446), and closes its own four descriptors.  The children and their descendants may
 fork, close and exit at any time, also while the supervisor is still setting up.
 A reader gets end-of-file on an empty pipe when no process holds its write end; a
 writer gets SIGPIPE when no process holds its read end (POSIX.1-2017, read() and write()).
 */
module Pipes {

  datatype Channel = ToValidator | ToSolution

  datatype End = Read(channel: Channel) | Write(channel: Channel)

  datatype Tree = Supervisor | Validator | Solution

  datatype Process = Process(tree: Tree, held: set<End>)

  const ALL: set<End> := {Read(ToValidator), Write(ToValidator), Read(ToSolution), Write(ToSolution)}

  /** The descriptors in the order in which the supervisor closes them. */
  const CLOSING: seq<End> := [Read(ToValidator), Write(ToValidator), Read(ToSolution), Write(ToSolution)]

  /** The stdin and stdout given to each child. */
  function Given(t: Tree): set<End> {
    match t
    case Supervisor => {}
    case Validator => {Read(ToValidator), Write(ToSolution)}
    case Solution => {Read(ToSolution), Write(ToValidator)}
  }

  /** The tree that an end is meant for. */
  function Owner(e: End): Tree {
    if e in Given(Validator) then Validator else Solution
  }

  datatype Pc =
    | Start | Piped | ValidatorForked | ValidatorRuns | SolutionForked | SolutionRuns
    | Closing(next: nat) | Supervising

  /** Living processes by pid; 0 is the supervisor, 1 and 2 the children it launches. */
  datatype State = State(pc: Pc, procs: map<nat, Process>)

  const SUPERVISOR: nat := 0

  ghost predicate Init(s: State) {
    s == State(Start, map[SUPERVISOR := Process(Supervisor, {})])
  }

  ghost predicate ForkedChild(s: State, p: nat) {
    (s.pc.ValidatorForked? && p == 1) || (s.pc.SolutionForked? && p == 2)
  }

  /** A process of a child's tree forks, closes an end, or exits. */
  ghost predicate ChildStep(s: State, s': State) {
    exists p :: p in s.procs && p != SUPERVISOR && !ForkedChild(s, p) && ChildStepBy(s, s', p)
  }

  ghost predicate ChildStepBy(s: State, s': State, p: nat)
    requires p in s.procs
  {
    && s'.pc == s.pc
    && (|| (exists q :: q !in s.procs && 2 < q && s'.procs == s.procs[q := s.procs[p]])
        || (exists e :: s'.procs == s.procs[p := Process(s.procs[p].tree, s.procs[p].held - {e})])
        || s'.procs == s.procs - {p})
  }

  /** The next step of the supervisor's set-up; `closes` is what it closes at the end. */
  ghost predicate SetupStep(closes: set<End>, s: State, s': State) {
    SUPERVISOR in s.procs &&
    var mine := s.procs[SUPERVISOR].held;
    match s.pc
    case Start => s' == State(Piped, s.procs[SUPERVISOR := Process(Supervisor, ALL)])
    case Piped => 1 !in s.procs && s' == State(ValidatorForked, s.procs[1 := Process(Validator, mine)])
    case ValidatorForked =>
      1 in s.procs && s' == State(ValidatorRuns, s.procs[1 := Process(Validator, Given(Validator))])
    case ValidatorRuns => 2 !in s.procs && s' == State(SolutionForked, s.procs[2 := Process(Solution, mine)])
    case SolutionForked => 2 in s.procs && s' == State(SolutionRuns, s.procs[2 := Process(Solution, Given(Solution))])
    case SolutionRuns => s' == State(Closing(0), s.procs)
    case Closing(k) =>
      if k < |CLOSING|
      then s' == State(Closing(k + 1), s.procs[SUPERVISOR := Process(Supervisor, mine - ({CLOSING[k]} * closes))])
      else s' == State(Supervising, s.procs)
    case Supervising => false
  }

  ghost predicate Next(closes: set<End>, s: State, s': State) {
    ChildStep(s, s') || SetupStep(closes, s, s')
  }

  ghost predicate IsRun(closes: set<End>, run: seq<State>) {
    && 0 < |run| && Init(run[0])
    && forall i :: 0 <= i < |run| - 1 ==> Next(closes, run[i], run[i + 1])
  }

  function Last(run: seq<State>): State
    requires 0 < |run|
  {
    run[|run| - 1]
  }

  // ----- ownership

  /** What the supervisor itself still holds. */
  ghost function Mine(closes: set<End>, pc: Pc): set<End> {
    match pc
    case Start => {}
    case Closing(k) => set e | e in ALL && (e !in closes || e !in CLOSING[..if k <= |CLOSING| then k else |CLOSING|])
    case Supervising => ALL - closes
    case _ => ALL
  }

  /** Outside the supervisor, an end is held only in the tree it is meant for. */
  ghost predicate Inv(closes: set<End>, s: State) {
    && SUPERVISOR in s.procs && s.procs[SUPERVISOR] == Process(Supervisor, Mine(closes, s.pc))
    && (s.pc.Closing? ==> s.pc.next <= |CLOSING|)
    && (s.pc.ValidatorForked? ==> 1 in s.procs && s.procs[1].tree == Validator)
    && (s.pc.SolutionForked? ==> 2 in s.procs && s.procs[2].tree == Solution)
    && forall p :: p in s.procs && p != SUPERVISOR ==>
         s.procs[p].tree != Supervisor && (ForkedChild(s, p) || s.procs[p].held <= Given(s.procs[p].tree))
  }

  lemma NextKeepsInv(closes: set<End>, s: State, s': State)
    requires Inv(closes, s) && Next(closes, s, s')
    ensures Inv(closes, s')
  {
    if SetupStep(closes, s, s') {
      if s.pc.Closing? && s.pc.next < |CLOSING| {
        var k := s.pc.next;
        assert CLOSING[..k + 1] == CLOSING[..k] + [CLOSING[k]];
        assert Mine(closes, s'.pc) == Mine(closes, s.pc) - ({CLOSING[k]} * closes);
      } else if s.pc.Closing? {
        assert CLOSING[..|CLOSING|] == CLOSING;
        forall e | e in ALL ensures e in CLOSING {
          assert e == CLOSING[0] || e == CLOSING[1] || e == CLOSING[2] || e == CLOSING[3];
        }
        assert Mine(closes, s.pc) == ALL - closes;
      }
    }
  }

  lemma {:induction false} RunInv(closes: set<End>, run: seq<State>)
    requires IsRun(closes, run)
    ensures forall i :: 0 <= i < |run| ==> Inv(closes, run[i])
  {
    for i := 1 to |run|
      invariant forall j :: 0 <= j < i ==> Inv(closes, run[j])
    {
      assert Next(closes, run[i - 1], run[i - 1 + 1]);
      NextKeepsInv(closes, run[i - 1], run[i]);
    }
  }

  // ----- end-of-file and SIGPIPE

  ghost predicate Dead(s: State, t: Tree) {
    forall p :: p in s.procs ==> s.procs[p].tree != t
  }

  ghost predicate HeldByNone(s: State, e: End) {
    forall p :: p in s.procs ==> e !in s.procs[p].held
  }

  /** With all four descriptors closed, every end is held only in its own tree, at every
      later point and through any forks and exits. */
  lemma EndsStayInTheirTrees(run: seq<State>, p: nat, e: End)
    requires IsRun(ALL, run) && Last(run).pc == Supervising
    requires p in Last(run).procs && e in Last(run).procs[p].held
    ensures Last(run).procs[p].tree == Owner(e)
    ensures Owner(e) == if e == Read(ToValidator) || e == Write(ToSolution) then Validator else Solution
  {
    RunInv(ALL, run);
    EveryEnd(e);
  }

  ghost predicate HangsUp(closes: set<End>, e: End) {
    forall run: seq<State> ::
      IsRun(closes, run) && Last(run).pc == Supervising && Dead(Last(run), Owner(e)) ==> HeldByNone(Last(run), e)
  }

  lemma Extend(closes: set<End>, run: seq<State>, s: State)
    requires IsRun(closes, run) && Next(closes, Last(run), s)
    ensures IsRun(closes, run + [s])
  {
    var run' := run + [s];
    forall i | 0 <= i < |run'| - 1 ensures Next(closes, run'[i], run'[i + 1]) {
      if i == |run| - 1 { assert run'[i] == Last(run); }
    }
  }

  lemma SetUp(closes: set<End>, run: seq<State>, s: State) returns (run': seq<State>)
    requires IsRun(closes, run) && SetupStep(closes, Last(run), s)
    ensures IsRun(closes, run') && Last(run') == s && run' == run + [s]
  {
    Extend(closes, run, s);
    run' := run + [s];
  }

  lemma Exit(closes: set<End>, run: seq<State>, p: nat) returns (run': seq<State>)
    requires IsRun(closes, run) && p in Last(run).procs && p != SUPERVISOR && !ForkedChild(Last(run), p)
    ensures IsRun(closes, run') && Last(run') == State(Last(run).pc, Last(run).procs - {p})
    ensures run' == run + [Last(run')]
  {
    var s := State(Last(run).pc, Last(run).procs - {p});
    assert ChildStepBy(Last(run), s, p);
    Extend(closes, run, s);
    run' := run + [s];
  }

  /** The set-up with no child doing anything. */
  lemma QuietSetUp(closes: set<End>) returns (run: seq<State>)
    ensures IsRun(closes, run) && Last(run).pc == Supervising
    ensures Last(run).procs.Keys == {SUPERVISOR, 1, 2}
    ensures Last(run).procs[1] == Process(Validator, Given(Validator))
    ensures Last(run).procs[2] == Process(Solution, Given(Solution))
    ensures forall i :: 0 <= i < |run| - 1 ==> run[i].pc != Supervising
  {
    var v, t := Process(Validator, Given(Validator)), Process(Solution, Given(Solution));
    var all := Process(Supervisor, ALL);
    run := [State(Start, map[SUPERVISOR := Process(Supervisor, {})])];
    run := SetUp(closes, run, State(Piped, Last(run).procs[SUPERVISOR := all]));
    run := SetUp(closes, run, State(ValidatorForked, Last(run).procs[1 := Process(Validator, ALL)]));
    run := SetUp(closes, run, State(ValidatorRuns, Last(run).procs[1 := v]));
    run := SetUp(closes, run, State(SolutionForked, Last(run).procs[2 := Process(Solution, ALL)]));
    run := SetUp(closes, run, State(SolutionRuns, Last(run).procs[2 := t]));
    run := SetUp(closes, run, State(Closing(0), Last(run).procs));
    for k := 0 to |CLOSING|
      invariant IsRun(closes, run) && Last(run).pc == Closing(k)
      invariant Last(run).procs.Keys == {SUPERVISOR, 1, 2}
      invariant Last(run).procs[1] == v && Last(run).procs[2] == t
      invariant forall i :: 0 <= i < |run| ==> run[i].pc != Supervising
    {
      var mine := Last(run).procs[SUPERVISOR].held - ({CLOSING[k]} * closes);
      run := SetUp(closes, run, State(Closing(k + 1), Last(run).procs[SUPERVISOR := Process(Supervisor, mine)]));
    }
    run := SetUp(closes, run, State(Supervising, Last(run).procs));
  }

  lemma EveryEnd(e: End)
    ensures e in ALL
  {
    match e.channel
    case ToValidator => assert e == Read(ToValidator) || e == Write(ToValidator);
    case ToSolution => assert e == Read(ToSolution) || e == Write(ToSolution);
  }

  /**
   The death of a tree always hangs up an end meant for it exactly when the supervisor
   closed its own copy.  For a write end the other side then reads end-of-file, for a
   read end the other side gets SIGPIPE.
   */
  lemma HangsUpIff(closes: set<End>, e: End)
    ensures HangsUp(closes, e) <==> e in closes
  {
    if e in closes {
      forall run: seq<State> | IsRun(closes, run) && Last(run).pc == Supervising && Dead(Last(run), Owner(e))
        ensures HeldByNone(Last(run), e)
      {
        RunInv(closes, run);
      }
    } else {
      var run := QuietSetUp(closes);
      run := Exit(closes, run, if Owner(e) == Validator then 1 else 2);
      RunInv(closes, run);
      EveryEnd(e);
      assert e in Last(run).procs[SUPERVISOR].held;
      assert Dead(Last(run), Owner(e));
    }
  }

  /** A dead tree stays dead, so the hang-up lasts. */
  lemma {:induction false} DeadTreeStaysDead(closes: set<End>, run: seq<State>, i: nat, j: nat, t: Tree)
    requires IsRun(closes, run) && i <= j < |run|
    requires run[i].pc == Supervising && Dead(run[i], t)
    ensures run[j].pc == Supervising && Dead(run[j], t)
    decreases j
  {
    if i < j {
      DeadTreeStaysDead(closes, run, i, j - 1, t);
      assert Next(closes, run[j - 1], run[j - 1 + 1]);
    }
  }

  // ----- the leader of a tree and its descendants

  /** The process that the supervisor launched for a tree; it alone is waited for. */
  function Leader(t: Tree): nat {
    match t
    case Supervisor => SUPERVISOR
    case Validator => 1
    case Solution => 2
  }

  /** A descendant of a tree's leader that still holds an end. */
  ghost predicate HeldByDescendant(s: State, e: End) {
    exists p :: p in s.procs && p != Leader(Owner(e)) && s.procs[p].tree == Owner(e) && e in s.procs[p].held
  }

  /** When the leader of a tree is gone, an end meant for the tree hangs up exactly when no
      descendant of the leader holds it. */
  lemma LeaderGoneHangsUpIff(run: seq<State>, e: End)
    requires IsRun(ALL, run) && Last(run).pc == Supervising && Leader(Owner(e)) !in Last(run).procs
    ensures HeldByNone(Last(run), e) <==> !HeldByDescendant(Last(run), e)
  {
    forall p | p in Last(run).procs && e in Last(run).procs[p].held ensures Last(run).procs[p].tree == Owner(e) {
      EndsStayInTheirTrees(run, p, e);
    }
  }

  lemma Fork(closes: set<End>, run: seq<State>, p: nat, q: nat) returns (run': seq<State>)
    requires IsRun(closes, run) && p in Last(run).procs && p != SUPERVISOR && !ForkedChild(Last(run), p)
    requires q !in Last(run).procs && 2 < q
    ensures IsRun(closes, run') && Last(run') == State(Last(run).pc, Last(run).procs[q := Last(run).procs[p]])
    ensures run' == run + [Last(run')]
  {
    var s := State(Last(run).pc, Last(run).procs[q := Last(run).procs[p]]);
    assert ChildStepBy(Last(run), s, p);
    Extend(closes, run, s);
    run' := run + [s];
  }
}
