/** The dataflow LU with the block tables as data.  A task reads the descriptors of its blocks from
    the tables, updates the matrix, and writes the descriptor of its own block into the other table,
    where later tasks read it.  In every schedule each descriptor is there when it is read. */
module LuDescriptors {
  import opened TaskGraph
  import opened DependTasks
  import opened LuSteps
  import opened LuActions
  import opened LuDataflow
  import opened LuDataflowExact
  import opened Blocks

  /** What a location holds: an element of the matrix, or an entry of a table. */
  datatype Content = Number(x: real) | Descriptor(block: Block)

  type Full = Action<LuSteps.Loc, Content>
  type FullStore = Store<LuSteps.Loc, Content>

  // ------------------------------------------------ the task bodies

  /** The elements of the matrix. */
  function Numbers(s: FullStore): Matrix {
    map x | x in s && x.Elem? && s[x].Number? :: s[x].x
  }

  function Lift(a: Update): Full {
    Action(a.uses, a.target, v => Number(a.f(Numbers(v))))
  }

  function LiftAll(acts: seq<Update>): seq<Full> {
    seq(|acts|, k requires 0 <= k < |acts| => Lift(acts[k]))
  }

  /** The entry an operation takes its block from: table 0 in step 0, else the table of the step
      before. */
  function Source(op: Op): LuSteps.Loc {
    Entry(if op.step == 0 then 0 else (op.step - 1) % 2, op.row, op.col)
  }

  function Target(op: Op): LuSteps.Loc { Entry(op.step % 2, op.row, op.col) }

  /** The entries an operation reads. */
  function Reads(op: Op): set<LuSteps.Loc> {
    {Source(op)} + set b | b in Pivots(op) :: Entry(op.step % 2, b.0, b.1)
  }

  /** The kernels return the descriptor they were given; the task stores it. */
  function StoreEntry(op: Op): Full {
    Action(Reads(op), Target(op), v => if Source(op) in v then v[Source(op)] else Descriptor(Block(0, 0, 0)))
  }

  function FullBody(op: Op, size: int, nb: int): seq<Full>
    requires nb >= 1
  {
    LiftAll(OpActs(op, size, nb)) + [StoreEntry(op)]
  }

  function FullBodies(ops: seq<Op>, size: int, nb: int): Bodies<LuSteps.Loc, Content>
    requires nb >= 1
  {
    seq(|ops|, p requires 0 <= p < |ops| => FullBody(ops[p], size, nb))
  }

  // ------------------------------------------------ the tables do not disturb the matrix

  ghost predicate OnElements(a: Update) {
    a.target.Elem? && forall x | x in a.uses :: x.Elem?
  }

  lemma ExecLift(a: Update, s: FullStore)
    requires OnElements(a)
    ensures Numbers(Exec(Lift(a), s)) == Exec(a, Numbers(s))
  {
    assert Numbers(View(s, a.uses)) == View(Numbers(s), a.uses);
  }

  lemma {:induction false} RunLift(acts: seq<Update>, s: FullStore)
    requires forall k | 0 <= k < |acts| :: OnElements(acts[k])
    ensures Numbers(RunBody(LiftAll(acts), s)) == RunBody(acts, Numbers(s))
  {
    hide Numbers, Exec;
    if acts != [] {
      var front, a := acts[..|acts| - 1], acts[|acts| - 1];
      RunLift(front, s);
      assert LiftAll(acts)[..|acts| - 1] == LiftAll(front);
      ExecLift(a, RunBody(LiftAll(front), s));
    }
  }

  lemma ExecStoreEntry(op: Op, s: FullStore)
    ensures Numbers(Exec(StoreEntry(op), s)) == Numbers(s)
  {
  }

  lemma OpOnElements(op: Op, size: int, nb: int)
    requires nb >= 1
    ensures forall k | 0 <= k < |OpActs(op, size, nb)| :: OnElements(OpActs(op, size, nb)[k])
  {
    var p0, p1 := BlockStart(size, nb, op.step), BlockStart(size, nb, op.step + 1);
    var r0, r1 := BlockStart(size, nb, op.row), BlockStart(size, nb, op.row + 1);
    var c0, c1 := BlockStart(size, nb, op.col), BlockStart(size, nb, op.col + 1);
    BlockLocal(p0, p1, p1, r0, r1, c0, c1);
    forall k | 0 <= k < |OpActs(op, size, nb)| ensures OnElements(OpActs(op, size, nb)[k]) {
      assert LocalUpdate(OpActs(op, size, nb)[k], p0, p1, r0, r1, c0, c1);
    }
  }

  lemma {:induction false} SequentialNumbers(ops: seq<Op>, s: FullStore, size: int, nb: int)
    requires nb >= 1
    ensures Numbers(Sequential(FullBodies(ops, size, nb), s)) == Sequential(OpBodies(ops, size, nb), Numbers(s))
  {
    hide OpActs, Numbers, Exec;
    if ops != [] {
      var front, op := ops[..|ops| - 1], ops[|ops| - 1];
      SequentialNumbers(front, s, size, nb);
      assert FullBodies(ops, size, nb)[..|ops| - 1] == FullBodies(front, size, nb);
      assert OpBodies(ops, size, nb)[..|ops| - 1] == OpBodies(front, size, nb);
      var before := Sequential(FullBodies(front, size, nb), s);
      OpOnElements(op, size, nb);
      RunLift(OpActs(op, size, nb), before);
      RunSnoc(LiftAll(OpActs(op, size, nb)), StoreEntry(op), before);
      ExecStoreEntry(op, RunBody(LiftAll(OpActs(op, size, nb)), before));
    }
  }

  // ------------------------------------------------ conflicts

  lemma FullStays(op: Op, size: int, nb: int, k: int)
    requires nb >= 1 && ValidOp(op, nb) && 0 <= k < |FullBody(op, size, nb)|
    ensures Stays(op, FullBody(op, size, nb)[k], size, nb)
  {
    if k < |OpActs(op, size, nb)| {
      OpStays(op, size, nb, k);
    } else {
      forall x | x in Reads(op)
        ensures InBlock(x, op.row, op.col, size, nb) || exists b | b in Pivots(op) :: InBlock(x, b.0, b.1, size, nb)
      {
        if x != Source(op) {
          var b :| b in Pivots(op) && x == Entry(op.step % 2, b.0, b.1);
          assert InBlock(x, b.0, b.1, size, nb);
        }
      }
    }
  }

  lemma FullBodiesStay(size: int, nb: int)
    requires nb >= 1
    ensures BodiesStay(FullBodies(Ops(nb, nb), size, nb), size, nb)
  {
    var ops := Ops(nb, nb);
    OpsAre(nb, nb);
    forall p, k | 0 <= p < |ops| && 0 <= k < |FullBodies(ops, size, nb)[p]|
      ensures Stays(ops[p], FullBodies(ops, size, nb)[p][k], size, nb)
    {
      assert ops[p] in ops;
      FullStays(ops[p], size, nb, k);
    }
  }

  // ------------------------------------------------ what the tables hold

  /** The graph of the program, and the bodies of its tasks. */
  function TheGraph(nb: int): Graph
    requires nb >= 1
  {
    DependGraph(Program(Ops(nb, nb)))
  }

  /** Entries that are set hold the descriptor of their block; table 0 is set from the start, the
      others are set by the tasks that are done. */
  ghost predicate TablesAre(size: int, nb: int, pc: seq<nat>, s: FullStore)
    requires nb >= 1 && |pc| == |Ops(nb, nb)|
  {
    && (forall x | x in s && x.Entry? :: s[x] == Descriptor(BlockAt(size, nb, x.i, x.j)))
    && (forall i, j | 0 <= i < nb && 0 <= j < nb :: Entry(0, i, j) in s)
    && forall p | 0 <= p < |pc| && pc[p] > |OpActs(Ops(nb, nb)[p], size, nb)| :: Target(Ops(nb, nb)[p]) in s
  }

  /** A task that may take a step has all the descriptors it reads in the tables. */
  ghost predicate DescriptorsReady(size: int, nb: int, op: Op, s: FullStore)
    requires nb >= 1
  {
    forall x | x in Reads(op) :: x.Entry? && x in s && s[x] == Descriptor(BlockAt(size, nb, x.i, x.j))
  }

  /** An enabled task has everything finished that a chain of futures joins to it. */
  lemma EnabledAfter<L, V>(g: Graph, bodies: Bodies<L, V>, pc: seq<nat>, s: nat, t: nat)
    requires WellFormed(g) && |g| == |bodies| == |pc| && Causal(g, bodies, pc) && Enabled(g, bodies, pc, t)
    requires t < |g| && Path(g, s, t)
    ensures s < t && Finished(bodies, pc, s)
  {
    PathIncreases(g, s, t);
    StepCausal(g, bodies, pc, t);
    CausalPath(g, bodies, pc[t := pc[t] + 1], s, t);
  }

  /** The target of an operation that is joined to an enabled task is in the tables. */
  lemma EarlierTargetSet(size: int, nb: int, pc: seq<nat>, s: FullStore, q: nat, p: nat)
    requires nb >= 1 && WellFormed(TheGraph(nb)) && |TheGraph(nb)| == |Ops(nb, nb)| == |pc| && p < |pc| && q < |pc|
    requires var bodies := FullBodies(Ops(nb, nb), size, nb);
             Causal(TheGraph(nb), bodies, pc) && Enabled(TheGraph(nb), bodies, pc, p) && TablesAre(size, nb, pc, s)
    requires Path(TheGraph(nb), q, p)
    ensures Target(Ops(nb, nb)[q]) in s
  {
    hide OpActs, Path, Causal, TheGraph, WellFormed, Enabled, Ops;
    EnabledAfter(TheGraph(nb), FullBodies(Ops(nb, nb), size, nb), pc, q, p);
  }

  lemma SourceSet(size: int, nb: int, pc: seq<nat>, s: FullStore, p: nat)
    requires nb >= 1 && WellFormed(TheGraph(nb)) && |TheGraph(nb)| == |Ops(nb, nb)| == |pc| && p < |pc|
    requires var bodies := FullBodies(Ops(nb, nb), size, nb);
             Causal(TheGraph(nb), bodies, pc) && Enabled(TheGraph(nb), bodies, pc, p) && TablesAre(size, nb, pc, s)
    ensures Source(Ops(nb, nb)[p]) in s
  {
    hide OpActs, Path, Causal, Ops, WellFormed, Enabled;
    var op := Ops(nb, nb)[p];
    OpsAre(nb, nb);
    assert op in Ops(nb, nb);
    if op.step > 0 {
      var q := PlaceOf(Op(op.step - 1, op.row, op.col), nb);
      BlockChain(nb, q, p);
      EarlierTargetSet(size, nb, pc, s, q, p);
    }
  }

  lemma PivotSet(size: int, nb: int, pc: seq<nat>, s: FullStore, p: nat, b: (int, int))
    requires nb >= 1 && WellFormed(TheGraph(nb)) && |TheGraph(nb)| == |Ops(nb, nb)| == |pc| && p < |pc|
    requires var bodies := FullBodies(Ops(nb, nb), size, nb);
             Causal(TheGraph(nb), bodies, pc) && Enabled(TheGraph(nb), bodies, pc, p) && TablesAre(size, nb, pc, s)
    requires b in Pivots(Ops(nb, nb)[p])
    ensures Entry(Ops(nb, nb)[p].step % 2, b.0, b.1) in s
  {
    hide OpActs, Path, Causal, Ops, WellFormed, Enabled, TablesAre;
    var op := Ops(nb, nb)[p];
    OpsAre(nb, nb);
    assert op in Ops(nb, nb);
    var q := PlaceOf(Op(op.step, b.0, b.1), nb);
    PivotChain(nb, q, p);
    EarlierTargetSet(size, nb, pc, s, q, p);
  }

  lemma EnabledReads(size: int, nb: int, pc: seq<nat>, s: FullStore, p: nat)
    requires nb >= 1 && WellFormed(TheGraph(nb)) && |TheGraph(nb)| == |Ops(nb, nb)| == |pc| && p < |pc|
    requires var bodies := FullBodies(Ops(nb, nb), size, nb);
             Causal(TheGraph(nb), bodies, pc) && Enabled(TheGraph(nb), bodies, pc, p) && TablesAre(size, nb, pc, s)
    ensures DescriptorsReady(size, nb, Ops(nb, nb)[p], s)
  {
    hide OpActs, Causal, Ops, WellFormed, Enabled;
    var op := Ops(nb, nb)[p];
    SourceSet(size, nb, pc, s, p);
    forall b | b in Pivots(op) ensures Entry(op.step % 2, b.0, b.1) in s {
      PivotSet(size, nb, pc, s, p, b);
    }
  }

  lemma LiftKeepsEntries(a: Update, s: FullStore)
    requires OnElements(a)
    ensures forall x: LuSteps.Loc | x.Entry? ::
              (x in Exec(Lift(a), s) <==> x in s) && (x in s ==> Exec(Lift(a), s)[x] == s[x])
  {
  }

  lemma StoreSetsEntry(op: Op, s: FullStore)
    requires Source(op) in s
    ensures Exec(StoreEntry(op), s) == s[Target(op) := s[Source(op)]]
  {
    assert Source(op) in View(s, Reads(op));
  }

  lemma StepKeepsTables(size: int, nb: int, st: State<LuSteps.Loc, Content>, p: nat)
    requires nb >= 1 && WellFormed(TheGraph(nb)) && |TheGraph(nb)| == |Ops(nb, nb)| == |st.pc|
    requires var bodies := FullBodies(Ops(nb, nb), size, nb);
             Causal(TheGraph(nb), bodies, st.pc) && Enabled(TheGraph(nb), bodies, st.pc, p)
             && TablesAre(size, nb, st.pc, st.store)
    ensures var st' := Step(FullBodies(Ops(nb, nb), size, nb), st, p);
            TablesAre(size, nb, st'.pc, st'.store)
  {
    hide OpActs, Causal, Ops, WellFormed, Lift, StoreEntry, Exec, TheGraph;
    var op, bodies := Ops(nb, nb)[p], FullBodies(Ops(nb, nb), size, nb);
    var k := st.pc[p];
    if k < |OpActs(op, size, nb)| {
      OpOnElements(op, size, nb);
      assert bodies[p][k] == Lift(OpActs(op, size, nb)[k]);
      LiftKeepsEntries(OpActs(op, size, nb)[k], st.store);
    } else if k == |OpActs(op, size, nb)| {
      EnabledReads(size, nb, st.pc, st.store, p);
      assert bodies[p][k] == StoreEntry(op);
      StoreSetsEntry(op, st.store);
    }
  }

  lemma {:induction false} RunKeepsTables(size: int, nb: int, st: State<LuSteps.Loc, Content>, sched: seq<nat>,
                                          st': State<LuSteps.Loc, Content>)
    requires nb >= 1 && WellFormed(TheGraph(nb)) && |TheGraph(nb)| == |Ops(nb, nb)| == |st.pc| == |st'.pc|
    requires Causal(TheGraph(nb), FullBodies(Ops(nb, nb), size, nb), st.pc) && TablesAre(size, nb, st.pc, st.store)
    requires Reaches(TheGraph(nb), FullBodies(Ops(nb, nb), size, nb), st, sched, st')
    ensures Causal(TheGraph(nb), FullBodies(Ops(nb, nb), size, nb), st'.pc) && TablesAre(size, nb, st'.pc, st'.store)
    decreases |sched|
  {
    hide TablesAre, Causal, Enabled, Step, TheGraph, Finished, FullBodies, Ops, WellFormed;
    FullCount(size, nb);
    if sched != [] {
      var bodies := FullBodies(Ops(nb, nb), size, nb);
      SameCount(TheGraph(nb), bodies, st, sched[0]);
      StepKeepsTables(size, nb, st, sched[0]);
      StepCausal(TheGraph(nb), bodies, st.pc, sched[0]);
      RunKeepsTables(size, nb, Step(bodies, st, sched[0]), sched[1..], st');
    }
  }

  lemma FullCount(size: int, nb: int)
    requires nb >= 1
    ensures |FullBodies(Ops(nb, nb), size, nb)| == |Ops(nb, nb)|
  {
  }

  lemma SameCount<L, V>(g: Graph, bodies: Bodies<L, V>, st: State<L, V>, t: nat)
    requires WellFormed(g) && |g| == |bodies| == |st.pc| && Enabled(g, bodies, st.pc, t)
    ensures t < |bodies| && !Finished(bodies, st.pc, t)
    ensures |Step(bodies, st, t).pc| == |bodies| && Step(bodies, st, t).pc == st.pc[t := st.pc[t] + 1]
  {
  }

  /** Before the first task: table 0 is what getBlockList made, the matrix is m. */
  ghost predicate Filled(size: int, nb: int, m: Matrix, s: FullStore)
    requires nb >= 1
  {
    && Numbers(s) == m
    && (forall x | x in s && x.Entry? ::
          x.buf == 0 && 0 <= x.i < nb && 0 <= x.j < nb && s[x] == Descriptor(BlockAt(size, nb, x.i, x.j)))
    && forall i, j | 0 <= i < nb && 0 <= j < nb :: Entry(0, i, j) in s
  }

  /** Main result on the tables: in every state of every schedule, a task that may take a step finds
      in the tables the descriptors of exactly its own block and of its pivots. */
  lemma EveryTaskReadsItsBlocks(size: int, nb: int, m: Matrix, s: FullStore, sched: seq<nat>,
                                st: State<LuSteps.Loc, Content>, p: nat)
    requires nb >= 1 && Filled(size, nb, m, s)
    requires var g, bodies := TheGraph(nb), FullBodies(Ops(nb, nb), size, nb);
             && WellFormed(g) && |g| == |bodies| == |st.pc|
             && Reaches(g, bodies, Initial(bodies, s), sched, st) && Enabled(g, bodies, st.pc, p)
    ensures DescriptorsReady(size, nb, Ops(nb, nb)[p], st.store)
  {
    hide OpActs, Reaches, TheGraph, Path;
    var bodies := FullBodies(Ops(nb, nb), size, nb);
    RunKeepsTables(size, nb, Initial(bodies, s), sched, st);
    EnabledReads(size, nb, st.pc, st.store, p);
  }

  /** Main result on the matrix: with the tables as data, too, every complete schedule leaves the
      factors. */
  lemma EveryFullScheduleFactorises(l: Factor, u: Factor, size: int, nb: int, m: Matrix, s: FullStore, sched: seq<nat>,
                                    end: State<LuSteps.Loc, Content>)
    requires nb >= 1 && size >= 0 && Factors(l, u, size) && IsProduct(l, u, size, m) && Filled(size, nb, m, s)
    requires var g, bodies := TheGraph(nb), FullBodies(Ops(nb, nb), size, nb);
             && WellFormed(g) && |g| == |bodies| == |end.pc|
             && Reaches(g, bodies, Initial(bodies, s), sched, end) && AllFinished(bodies, end.pc)
    ensures HoldsFactors(l, u, size, Numbers(end.store))
  {
    hide Reaches, AllFinished, Numbers;
    var bodies := FullBodies(Ops(nb, nb), size, nb);
    FullBodiesStay(size, nb);
    GraphOrdersConflicts(bodies, size, nb);
    Determinacy(TheGraph(nb), bodies, s, sched, end);
    SequentialNumbers(Ops(nb, nb), s, size, nb);
    SequentialFactorises(l, u, size, nb, m);
  }
}
