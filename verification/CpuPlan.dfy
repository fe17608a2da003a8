/**
 `plan_cpu` of src/icpc_verify/cpu.py: which CPU judges, and which siblings go offline.
 */
module CpuPlan {
  import opened Options
  import CpuList

  type Core = seq<int>

  /** One CPU with its sibling list; a topology has one entry per CPU. */
  datatype Entry = Entry(cpu: int, siblings: Core)

  datatype Warning = Requested | OneCoreOnly | OfflineDisabled

  datatype Plan = Plan(judgeCpu: int, offline: seq<int>, isolated: bool, warnings: seq<Warning>)

  datatype Error = NoTopology | NoSuchCpu | EmptyCore

  datatype Result = Ok(plan: Plan) | Err(error: Error)

  // ----- `sorted({siblings for siblings in topology.values()})`

  /** The order of tuples. */
  predicate Less(a: Core, b: Core) {
    if b == [] then false
    else if a == [] then true
    else if a[0] != b[0] then a[0] < b[0]
    else Less(a[1..], b[1..])
  }

  lemma {:induction false} LessIsTotal(a: Core, b: Core)
    ensures a != b ==> Less(a, b) || Less(b, a)
  {
    if a != [] && b != [] && a[0] == b[0] {
      LessIsTotal(a[1..], b[1..]);
      assert a == [a[0]] + a[1..] && b == [b[0]] + b[1..];
    }
  }

  lemma {:induction false} LessIsTransitive(a: Core, b: Core, c: Core)
    requires Less(a, b) && Less(b, c)
    ensures Less(a, c)
  {
    if a != [] && a[0] == b[0] == c[0] {
      LessIsTransitive(a[1..], b[1..], c[1..]);
    }
  }

  ghost predicate Ascending(cores: seq<Core>) {
    forall i, j :: 0 <= i < j < |cores| ==> Less(cores[i], cores[j])
  }

  function InsertCore(core: Core, cores: seq<Core>): (r: seq<Core>)
    ensures forall c :: c in r <==> c == core || c in cores
  {
    if cores == [] || Less(core, cores[0]) then [core] + cores
    else if core == cores[0] then cores
    else
      assert forall c :: c in cores <==> c == cores[0] || c in cores[1..];
      [cores[0]] + InsertCore(core, cores[1..])
  }

  lemma {:induction false} InsertKeepsAscending(core: Core, cores: seq<Core>)
    requires Ascending(cores)
    ensures Ascending(InsertCore(core, cores))
  {
    if cores == [] {
    } else if Less(core, cores[0]) {
      forall j | 0 <= j < |cores| ensures Less(core, cores[j]) {
        if 0 < j { LessIsTransitive(core, cores[0], cores[j]); }
      }
    } else if core != cores[0] {
      InsertKeepsAscending(core, cores[1..]);
      LessIsTotal(core, cores[0]);
      var rest := InsertCore(core, cores[1..]);
      forall j | 0 <= j < |rest| ensures Less(cores[0], rest[j]) {
        assert rest[j] in rest;
        if rest[j] != core {
          var k :| 0 <= k < |cores[1..]| && cores[1..][k] == rest[j];
          assert cores[k + 1] == rest[j];
        }
      }
    }
  }

  ghost predicate IsCore(topology: seq<Entry>, c: Core) {
    exists i :: 0 <= i < |topology| && topology[i].siblings == c
  }

  lemma TailCores(topology: seq<Entry>, c: Core)
    requires topology != []
    ensures IsCore(topology, c) <==> c == topology[0].siblings || IsCore(topology[1..], c)
  {
    if IsCore(topology[1..], c) {
      var i :| 0 <= i < |topology[1..]| && topology[1..][i].siblings == c;
      assert topology[i + 1].siblings == c;
    }
    if IsCore(topology, c) {
      var i :| 0 <= i < |topology| && topology[i].siblings == c;
      if 0 < i { assert topology[1..][i - 1].siblings == c; }
    }
  }

  function Cores(topology: seq<Entry>): (r: seq<Core>)
    ensures topology != [] ==> topology[0].siblings in r
  {
    if topology == [] then [] else InsertCore(topology[0].siblings, Cores(topology[1..]))
  }

  lemma {:induction false} CoresOf(topology: seq<Entry>)
    ensures forall c :: c in Cores(topology) <==> IsCore(topology, c)
  {
    if topology != [] {
      CoresOf(topology[1..]);
      forall c ensures c in Cores(topology) <==> IsCore(topology, c) {
        TailCores(topology, c);
      }
    }
  }

  lemma {:induction false} CoresAscend(topology: seq<Entry>)
    ensures Ascending(Cores(topology))
  {
    if topology != [] {
      CoresAscend(topology[1..]);
      InsertKeepsAscending(topology[0].siblings, Cores(topology[1..]));
    }
  }

  // ----- the plan

  predicate Knows(topology: seq<Entry>, cpu: int) {
    exists i :: 0 <= i < |topology| && topology[i].cpu == cpu
  }

  /** `tuple(cpu for cpu in last_core if cpu != judge_cpu)` */
  function Without(core: Core, cpu: int): (r: Core)
    ensures forall c :: c in r <==> c in core && c != cpu
  {
    if core == [] then []
    else
      assert forall c :: c in core <==> c == core[0] || c in core[1..];
      if core[0] == cpu then Without(core[1..], cpu) else [core[0]] + Without(core[1..], cpu)
  }

  lemma {:induction false} WithoutAbsent(core: Core, cpu: int)
    requires cpu !in core
    ensures Without(core, cpu) == core
  {
    if core != [] {
      WithoutAbsent(core[1..], cpu);
      assert core == [core[0]] + core[1..];
    }
  }

  function PlanCpu(topology: seq<Entry>, requested: Option<int>, offlineSibling: bool): Result {
    if topology == [] then Err(NoTopology)
    else if requested.Some? then
      if !Knows(topology, requested.value) then Err(NoSuchCpu)
      else Ok(Plan(requested.value, [], false, [Requested]))
    else
      var cores := Cores(topology);
      var last := cores[|cores| - 1];
      if last == [] then Err(EmptyCore)
      else if |cores| == 1 then Ok(Plan(last[|last| - 1], [], false, [OneCoreOnly]))
      else
        var siblings := Without(last, last[0]);
        if siblings == [] then Ok(Plan(last[0], [], true, []))
        else if !offlineSibling then Ok(Plan(last[0], [], false, [OfflineDisabled]))
        else Ok(Plan(last[0], siblings, true, []))
  }

  /** Every CPU is listed in its own core, in increasing order, and its core is also the
      core of each of its siblings. */
  ghost predicate Partition(topology: seq<Entry>) {
    forall i :: 0 <= i < |topology| ==> GoodEntry(topology, topology[i])
  }

  ghost predicate GoodEntry(topology: seq<Entry>, e: Entry) {
    && CpuList.StrictlyIncreasing(e.siblings) && e.cpu in e.siblings
    && forall c :: c in e.siblings ==>
         0 <= c && forall j :: 0 <= j < |topology| && c in topology[j].siblings ==> topology[j].siblings == e.siblings
  }

  lemma CoresAreDisjoint(topology: seq<Entry>, a: Core, b: Core, c: int)
    requires Partition(topology) && a in Cores(topology) && b in Cores(topology) && c in a && c in b
    ensures a == b && 0 <= c && CpuList.StrictlyIncreasing(a)
  {
    CoresOf(topology);
    var i :| 0 <= i < |topology| && topology[i].siblings == a;
    var j :| 0 <= j < |topology| && topology[j].siblings == b;
    assert GoodEntry(topology, topology[i]);
  }

  lemma CoresNotEmpty(topology: seq<Entry>, a: Core)
    requires Partition(topology) && a in Cores(topology)
    ensures a != []
  {
    CoresOf(topology);
    var i :| 0 <= i < |topology| && topology[i].siblings == a;
    assert GoodEntry(topology, topology[i]);
  }

  /** The last core has the largest first thread of all. */
  lemma LastCoreStartsHighest(topology: seq<Entry>, a: Core)
    requires topology != [] && Partition(topology)
    requires a in Cores(topology) && a != Cores(topology)[|Cores(topology)| - 1]
    ensures var last := Cores(topology)[|Cores(topology)| - 1];
            a != [] && last != [] && a[0] < last[0]
  {
    var cores := Cores(topology);
    var last := cores[|cores| - 1];
    CoresAscend(topology);
    var i :| 0 <= i < |cores| && cores[i] == a;
    assert Less(a, last);
    CoresNotEmpty(topology, a);
    CoresNotEmpty(topology, last);
    if a[0] == last[0] {
      CoresAreDisjoint(topology, a, last, a[0]);
    }
  }

  /** The core that an automatic plan uses. */
  function LastCore(topology: seq<Entry>): Core
    requires topology != []
  {
    Cores(topology)[|Cores(topology)| - 1]
  }

  lemma LastCoreStandsApart(topology: seq<Entry>, core: Core)
    requires topology != [] && Partition(topology) && core in Cores(topology)
    ensures var last := LastCore(topology);
            && last != [] && core != [] && core[0] <= last[0]
            && CpuList.StrictlyIncreasing(last)
            && (core != last ==> 0 <= core[0] < last[0] && forall c :: c in core ==> c !in last)
  {
    var last := LastCore(topology);
    assert last in Cores(topology);
    CoresNotEmpty(topology, core);
    CoresNotEmpty(topology, last);
    CoresAreDisjoint(topology, last, last, last[0]);
    if core != last {
      LastCoreStartsHighest(topology, core);
      CoresAreDisjoint(topology, core, core, core[0]);
      forall c | c in core ensures c !in last {
        if c in last { CoresAreDisjoint(topology, core, last, c); }
      }
    }
  }

  lemma AnotherCore(topology: seq<Entry>)
    requires topology != [] && 1 < |Cores(topology)|
    ensures Cores(topology)[0] in Cores(topology) && Cores(topology)[0] != LastCore(topology)
  {
    CoresAscend(topology);
    assert Less(Cores(topology)[0], LastCore(topology));
    LessIrreflexive(LastCore(topology));
  }

  /**
   An automatic plan on several cores takes the first thread of the core whose first thread
   is largest; it never uses or offlines CPU 0, never offlines the judge CPU, and leaves
   every other core online and unused.  `isolated` holds exactly when the offline CPUs are
   exactly the judge's siblings, which is exactly when there is no warning.
   */
  lemma AutomaticPlanIsSafe(topology: seq<Entry>, offlineSibling: bool)
    requires topology != [] && Partition(topology) && 1 < |Cores(topology)|
    ensures var last, r := LastCore(topology), PlanCpu(topology, None, offlineSibling);
            && last != [] && r.Ok? && r.plan.judgeCpu == last[0]
            && (forall core :: core in Cores(topology) ==> core != [] && core[0] <= last[0])
            && 0 < r.plan.judgeCpu && 0 !in r.plan.offline && r.plan.judgeCpu !in r.plan.offline
            && (exists core :: core in Cores(topology) && core != last)
            && (forall core, c :: core in Cores(topology) && core != last && c in core ==>
                  c != r.plan.judgeCpu && c !in r.plan.offline)
            && (r.plan.isolated <==> forall c :: c in r.plan.offline <==> c in last && c != r.plan.judgeCpu)
            && (r.plan.isolated <==> r.plan.warnings == [])
            && r.plan.offline == (if offlineSibling then last[1..] else [])
            && (offlineSibling || |last| == 1 <==> r.plan.isolated)
            && (!r.plan.isolated ==> r.plan.warnings == [OfflineDisabled])
  {
    var last := LastCore(topology);
    LastCoreStandsApart(topology, last);
    WithoutAbsent(last[1..], last[0]);
    AnotherCore(topology);
    LastCoreStandsApart(topology, Cores(topology)[0]);
    forall core | core in Cores(topology)
      ensures core != [] && core[0] <= last[0] && (core != last ==> forall c :: c in core ==> c !in last)
    {
      LastCoreStandsApart(topology, core);
    }
    assert forall c :: c in last ==> last[0] <= c;
    var siblings := Without(last, last[0]);
    if siblings != [] { assert siblings[0] in siblings; }
  }

  lemma {:induction false} LessIrreflexive(a: Core)
    ensures !Less(a, a)
  {
    if a != [] {
      LessIrreflexive(a[1..]);
    }
  }

  lemma LastIsLargest(core: Core, c: int)
    requires CpuList.StrictlyIncreasing(core) && c in core
    ensures c <= core[|core| - 1]
  {
    var k :| 0 <= k < |core| && core[k] == c;
  }

  /** On one core every CPU is one of its threads. */
  lemma OnlyCore(topology: seq<Entry>, i: nat)
    requires i < |topology| && Partition(topology) && |Cores(topology)| == 1
    ensures topology[i].cpu in LastCore(topology) && CpuList.StrictlyIncreasing(LastCore(topology))
  {
    CoresOf(topology);
    assert IsCore(topology, topology[i].siblings);
    assert topology[i].siblings == LastCore(topology);
    assert GoodEntry(topology, topology[i]);
  }

  /** On one core, or when the CPU is requested, nothing goes offline and nothing is
      called isolated; on one core the judge gets the largest thread.  Without a topology,
      or for a CPU that is not in it, there is no plan. */
  lemma OtherPlansAreModest(topology: seq<Entry>, requested: Option<int>, offlineSibling: bool)
    requires Partition(topology) && (topology == [] || requested.Some? || |Cores(topology)| == 1)
    ensures var r := PlanCpu(topology, requested, offlineSibling);
            && (r == Err(NoTopology) <==> topology == [])
            && (r == Err(NoSuchCpu) <==>
                  topology != [] && requested.Some?
                  && forall i :: 0 <= i < |topology| ==> topology[i].cpu != requested.value)
            && (r.Err? ==> r.error.NoTopology? || r.error.NoSuchCpu?)
            && (r.Ok? ==> r.plan.offline == [] && !r.plan.isolated)
            && (r.Ok? ==> r.plan.warnings == [if requested.Some? then Requested else OneCoreOnly])
            && (r.Ok? && requested.Some? ==> r.plan.judgeCpu == requested.value)
            && (r.Ok? && requested.None? ==> forall i :: 0 <= i < |topology| ==> topology[i].cpu <= r.plan.judgeCpu)
  {
    if requested.None? && topology != [] {
      var last := LastCore(topology);
      CoresNotEmpty(topology, last);
      forall i | 0 <= i < |topology| ensures topology[i].cpu <= last[|last| - 1] {
        OnlyCore(topology, i);
        LastIsLargest(last, topology[i].cpu);
      }
    }
  }
}
