/** The dataflow LU with its real task bodies: every schedule, interleaved at the level of
    single matrix updates, leaves the factors. */
module LuDataflowExact {
  import opened TaskGraph
  import opened DependTasks
  import opened LuSteps
  import opened LuActions
  import opened LuDataflow
  import opened Blocks

  // ------------------------------------------------ the bodies of the tasks

  function OpActs(op: Op, size: int, nb: int): seq<Update>
    requires nb >= 1
  {
    BlockActs(BlockStart(size, nb, op.step), BlockStart(size, nb, op.step + 1),
              BlockStart(size, nb, op.row), BlockStart(size, nb, op.row + 1),
              BlockStart(size, nb, op.col), BlockStart(size, nb, op.col + 1))
  }

  function OpStep(m: Matrix, op: Op, size: int, nb: int): Matrix
    requires nb >= 1
  {
    BlockStep(m, BlockStart(size, nb, op.step), BlockStart(size, nb, op.step + 1),
              BlockStart(size, nb, op.row), BlockStart(size, nb, op.row + 1),
              BlockStart(size, nb, op.col), BlockStart(size, nb, op.col + 1))
  }

  lemma OpStays(op: Op, size: int, nb: int, k: int)
    requires nb >= 1 && ValidOp(op, nb) && 0 <= k < |OpActs(op, size, nb)|
    ensures Stays(op, OpActs(op, size, nb)[k], size, nb)
  {
    var p0, p1 := BlockStart(size, nb, op.step), BlockStart(size, nb, op.step + 1);
    var r0, r1 := BlockStart(size, nb, op.row), BlockStart(size, nb, op.row + 1);
    var c0, c1 := BlockStart(size, nb, op.col), BlockStart(size, nb, op.col + 1);
    BlockLocal(p0, p1, p1, r0, r1, c0, c1);
    var a := OpActs(op, size, nb)[k];
    assert LocalUpdate(a, p0, p1, r0, r1, c0, c1);
    var i, r, c :| p0 <= i < p1 && r0 <= r < r1 && c0 <= c < c1
                   && a.target == Elem(r, c) && a.uses <= {Elem(r, c), Elem(r, i), Elem(i, c)};
    LocalStays(op, size, nb, i, r, c);
  }

  lemma LocalStays(op: Op, size: int, nb: int, i: int, r: int, c: int)
    requires nb >= 1 && ValidOp(op, nb)
    requires BlockStart(size, nb, op.step) <= i < BlockStart(size, nb, op.step + 1)
    requires BlockStart(size, nb, op.row) <= r < BlockStart(size, nb, op.row + 1)
    requires BlockStart(size, nb, op.col) <= c < BlockStart(size, nb, op.col + 1)
    ensures InBlock(Elem(r, c), op.row, op.col, size, nb)
    ensures InBlock(Elem(r, i), op.row, op.step, size, nb) && InBlock(Elem(i, c), op.step, op.col, size, nb)
    ensures op.col == op.step || (op.row, op.step) in Pivots(op)
    ensures op.row == op.step || (op.step, op.col) in Pivots(op)
  {
  }

  function OpBodies(ops: seq<Op>, size: int, nb: int): Bodies<LuSteps.Loc, real>
    requires nb >= 1
  {
    seq(|ops|, p requires 0 <= p < |ops| => OpActs(ops[p], size, nb))
  }

  lemma OpBodiesStay(size: int, nb: int)
    requires nb >= 1
    ensures BodiesStay(OpBodies(Ops(nb, nb), size, nb), size, nb)
  {
    var ops := Ops(nb, nb);
    OpsAre(nb, nb);
    forall p, k | 0 <= p < |ops| && 0 <= k < |OpBodies(ops, size, nb)[p]|
      ensures Stays(ops[p], OpBodies(ops, size, nb)[p][k], size, nb)
    {
      assert ops[p] in ops;
      OpStays(ops[p], size, nb, k);
    }
  }

  // ------------------------------------------------ the sequential run

  function RunOps(ops: seq<Op>, m: Matrix, size: int, nb: int): Matrix
    requires nb >= 1
  {
    if ops == [] then m else OpStep(RunOps(ops[..|ops| - 1], m, size, nb), ops[|ops| - 1], size, nb)
  }

  lemma {:induction false} RunOpsAppend(xs: seq<Op>, ys: seq<Op>, m: Matrix, size: int, nb: int)
    requires nb >= 1
    ensures RunOps(xs + ys, m, size, nb) == RunOps(ys, RunOps(xs, m, size, nb), size, nb)
  {
    if ys == [] {
      assert xs + ys == xs;
    } else {
      assert (xs + ys)[..|xs + ys| - 1] == xs + ys[..|ys| - 1];
      RunOpsAppend(xs, ys[..|ys| - 1], m, size, nb);
    }
  }

  lemma RunOpsSnoc(xs: seq<Op>, op: Op, m: Matrix, size: int, nb: int)
    requires nb >= 1
    ensures RunOps(xs + [op], m, size, nb) == OpStep(RunOps(xs, m, size, nb), op, size, nb)
  {
    assert (xs + [op])[..|xs|] == xs;
  }

  lemma {:induction false} SequentialIsRunOps(ops: seq<Op>, m: Matrix, size: int, nb: int)
    requires nb >= 1
    ensures Sequential(OpBodies(ops, size, nb), m) == RunOps(ops, m, size, nb)
  {
    hide BlockStart, BlockStep, BlockActs;
    if ops != [] {
      var front, op := ops[..|ops| - 1], ops[|ops| - 1];
      SequentialIsRunOps(front, m, size, nb);
      assert OpBodies(ops, size, nb)[..|ops| - 1] == OpBodies(front, size, nb);
      RunBlock(RunOps(front, m, size, nb), BlockStart(size, nb, op.step), BlockStart(size, nb, op.step + 1),
               BlockStart(size, nb, op.row), BlockStart(size, nb, op.row + 1),
               BlockStart(size, nb, op.col), BlockStart(size, nb, op.col + 1));
    }
  }

  // ------------------------------------------------ levels of the blocks between operations

  /** The level of block (a, b) when operation (k, i, j) is next. */
  function LevelOf(size: int, nb: int, k: int, i: int, j: int, a: int, b: int): int
    requires nb >= 1
  {
    if a < k || b < k then size
    else if a < i || (a == i && b < j) then BlockStart(size, nb, k + 1)
    else BlockStart(size, nb, k)
  }

  ghost predicate BlockHasLevel(l: Factor, u: Factor, size: int, nb: int, m: Matrix, level: int, a: int, b: int)
    requires nb >= 1
  {
    RegionHasLevel(l, u, size, m, level, BlockStart(size, nb, a), BlockStart(size, nb, a + 1), BlockStart(size, nb, b),
                   BlockStart(size, nb, b + 1))
  }

  /** Operation (k, i, j) is next. */
  ghost predicate Next(l: Factor, u: Factor, size: int, nb: int, m: Matrix, k: int, i: int, j: int)
    requires nb >= 1
  {
    forall a, b | 0 <= a < nb && 0 <= b < nb :: BlockHasLevel(l, u, size, nb, m, LevelOf(size, nb, k, i, j, a, b), a, b)
  }

  lemma StartFacts(size: int, nb: int, a: int)
    requires nb >= 1 && size >= 0 && 0 <= a < nb
    ensures 0 <= BlockStart(size, nb, a) <= BlockStart(size, nb, a + 1) <= size
  {
    StartEnds(size, nb);
    StartMonotone(size, nb, 0, a);
    StartMonotone(size, nb, a, a + 1);
    StartMonotone(size, nb, a + 1, nb);
  }

  lemma BlocksDisjoint(size: int, nb: int, a: int, b: int, i: int, j: int)
    requires nb >= 1 && size >= 0 && 0 <= a < nb && 0 <= b < nb && 0 <= i < nb && 0 <= j < nb && (a != i || b != j)
    ensures || BlockStart(size, nb, a + 1) <= BlockStart(size, nb, i) ||
               BlockStart(size, nb, i + 1) <= BlockStart(size, nb, a)
            || BlockStart(size, nb, b + 1) <= BlockStart(size, nb, j) ||
               BlockStart(size, nb, j + 1) <= BlockStart(size, nb, b)
  {
    if a < i { StartMonotone(size, nb, a + 1, i); }
    if i < a { StartMonotone(size, nb, i + 1, a); }
    if b < j { StartMonotone(size, nb, b + 1, j); }
    if j < b { StartMonotone(size, nb, j + 1, b); }
  }

  /** The pivots an operation reads are final by the time it is next. */
  lemma PivotsAreReady(l: Factor, u: Factor, size: int, nb: int, m: Matrix, k: int, i: int, j: int)
    requires nb >= 1 && size >= 0 && ValidOp(Op(k, i, j), nb) && Next(l, u, size, nb, m, k, i, j)
    ensures PivotsReady(l, u, size, m, BlockStart(size, nb, k), BlockStart(size, nb, k + 1),
                        BlockStart(size, nb, i), BlockStart(size, nb, i + 1), BlockStart(size, nb, j),
                        BlockStart(size, nb, j + 1))
  {
    var p0, p1 := BlockStart(size, nb, k), BlockStart(size, nb, k + 1);
    StartFacts(size, nb, k);
    if i > k {
      assert BlockHasLevel(l, u, size, nb, m, LevelOf(size, nb, k, i, j, k, j), k, j);
      FinalRegion(l, u, size, m, p1, p0, p1, BlockStart(size, nb, j), BlockStart(size, nb, j + 1));
    }
    if j > k {
      assert BlockHasLevel(l, u, size, nb, m, LevelOf(size, nb, k, i, j, i, k), i, k);
      FinalRegion(l, u, size, m, p1, BlockStart(size, nb, i), BlockStart(size, nb, i + 1), p0, p1);
    }
  }

  /** Each operation raises its own block. */
  lemma OpAdvances(l: Factor, u: Factor, size: int, nb: int, m: Matrix, k: int, i: int, j: int)
    requires nb >= 1 && size >= 0 && Factors(l, u, size) && ValidOp(Op(k, i, j), nb) && Next(l, u, size, nb, m, k, i, j)
    ensures Next(l, u, size, nb, OpStep(m, Op(k, i, j), size, nb), k, i, j + 1)
  {
    hide BlockStart, Raise, BlockStep, Factors, PivotsReady;
    var p0, p1 := BlockStart(size, nb, k), BlockStart(size, nb, k + 1);
    var r0, r1 := BlockStart(size, nb, i), BlockStart(size, nb, i + 1);
    var c0, c1 := BlockStart(size, nb, j), BlockStart(size, nb, j + 1);
    StartFacts(size, nb, k);
    StartFacts(size, nb, i);
    StartFacts(size, nb, j);
    if i > k { StartMonotone(size, nb, k + 1, i); }
    if j > k { StartMonotone(size, nb, k + 1, j); }
    assert BlockHasLevel(l, u, size, nb, m, LevelOf(size, nb, k, i, j, i, j), i, j);
    PivotsAreReady(l, u, size, nb, m, k, i, j);
    TaskRaises(l, u, size, m, p0, p1, r0, r1, c0, c1);
    var m', j' := Raise(l, u, size, m, p1, r0, r1, c0, c1), j + 1;
    forall a, b | 0 <= a < nb && 0 <= b < nb
      ensures BlockHasLevel(l, u, size, nb, m', LevelOf(size, nb, k, i, j', a, b), a, b)
    {
      assert BlockHasLevel(l, u, size, nb, m, LevelOf(size, nb, k, i, j, a, b), a, b);
      if a != i || b != j { OtherBlockKept(l, u, size, nb, m, LevelOf(size, nb, k, i, j, a, b), p1, a, b, i, j); }
    }
  }

  lemma OtherBlockKept(l: Factor, u: Factor, size: int, nb: int, m: Matrix, level: int, level': int, a: int, b: int,
                       i: int, j: int)
    requires nb >= 1 && size >= 0 && 0 <= a < nb && 0 <= b < nb && 0 <= i < nb && 0 <= j < nb && (a != i || b != j)
    requires BlockHasLevel(l, u, size, nb, m, level, a, b)
    ensures BlockHasLevel(l, u, size, nb,
                          Raise(l, u, size, m, level', BlockStart(size, nb, i), BlockStart(size, nb, i + 1),
                                BlockStart(size, nb, j), BlockStart(size, nb, j + 1)), level, a, b)
  {
    BlocksDisjoint(size, nb, a, b, i, j);
    RegionKept(l, u, size, m, level, BlockStart(size, nb, a), BlockStart(size, nb, a + 1), BlockStart(size, nb, b),
               BlockStart(size, nb, b + 1),
               level', BlockStart(size, nb, i), BlockStart(size, nb, i + 1), BlockStart(size, nb, j),
               BlockStart(size, nb, j + 1));
  }

  lemma {:induction false} RowAdvances(l: Factor, u: Factor, size: int, nb: int, m: Matrix, k: int, i: int, hi: int)
    requires nb >= 1 && size >= 0 && Factors(l, u, size) && 0 <= k <= i < nb && k <= hi <= nb
    requires Next(l, u, size, nb, m, k, i, k)
    ensures Next(l, u, size, nb, RunOps(RowOps(k, i, hi), m, size, nb), k, i, hi)
    decreases hi - k
  {
    hide Next, OpStep;
    if k < hi {
      RowAdvances(l, u, size, nb, m, k, i, hi - 1);
      RowOpsNext(k, i, hi - 1);
      RunOpsSnoc(RowOps(k, i, hi - 1), Op(k, i, hi - 1), m, size, nb);
      OpAdvances(l, u, size, nb, RunOps(RowOps(k, i, hi - 1), m, size, nb), k, i, hi - 1);
    }
  }

  lemma NextRow(l: Factor, u: Factor, size: int, nb: int, m: Matrix, k: int, i: int)
    requires nb >= 1 && 0 <= k && Next(l, u, size, nb, m, k, i, nb)
    ensures Next(l, u, size, nb, m, k, i + 1, k)
  {
    var i' := i + 1;
    forall a, b | 0 <= a < nb && 0 <= b < nb
      ensures BlockHasLevel(l, u, size, nb, m, LevelOf(size, nb, k, i', k, a, b), a, b)
    {
      assert BlockHasLevel(l, u, size, nb, m, LevelOf(size, nb, k, i, nb, a, b), a, b);
    }
  }

  lemma {:induction false} StepAdvances(l: Factor, u: Factor, size: int, nb: int, m: Matrix, k: int, hi: int)
    requires nb >= 1 && size >= 0 && Factors(l, u, size) && 0 <= k <= hi <= nb
    requires Next(l, u, size, nb, m, k, k, k)
    ensures Next(l, u, size, nb, RunOps(StepOps(k, hi, nb), m, size, nb), k, hi, k)
    decreases hi - k
  {
    hide Next, OpStep, RowOps;
    if k < hi {
      StepAdvances(l, u, size, nb, m, k, hi - 1);
      RunOpsAppend(StepOps(k, hi - 1, nb), RowOps(k, hi - 1, nb), m, size, nb);
      var m1 := RunOps(StepOps(k, hi - 1, nb), m, size, nb);
      RowAdvances(l, u, size, nb, m1, k, hi - 1, nb);
      NextRow(l, u, size, nb, RunOps(RowOps(k, hi - 1, nb), m1, size, nb), k, hi - 1);
    }
  }

  lemma NextStep(l: Factor, u: Factor, size: int, nb: int, m: Matrix, k: int)
    requires nb >= 1 && size >= 0 && 0 <= k < nb && Next(l, u, size, nb, m, k, nb, k)
    ensures Next(l, u, size, nb, m, k + 1, k + 1, k + 1)
  {
    StartFacts(size, nb, k);
    var k' := k + 1;
    forall a, b | 0 <= a < nb && 0 <= b < nb
      ensures BlockHasLevel(l, u, size, nb, m, LevelOf(size, nb, k', k', k', a, b), a, b)
    {
      assert BlockHasLevel(l, u, size, nb, m, LevelOf(size, nb, k, nb, k, a, b), a, b);
      if (a == k && b >= k) || (b == k && a >= k) {
        FinalRegion(l, u, size, m, BlockStart(size, nb, k + 1), BlockStart(size, nb, a), BlockStart(size, nb, a + 1),
                    BlockStart(size, nb, b), BlockStart(size, nb, b + 1));
      }
    }
  }

  lemma {:induction false} StepsAdvance(l: Factor, u: Factor, size: int, nb: int, m: Matrix, k: int)
    requires nb >= 1 && size >= 0 && Factors(l, u, size) && 0 <= k <= nb
    requires Next(l, u, size, nb, m, 0, 0, 0)
    ensures Next(l, u, size, nb, RunOps(Ops(k, nb), m, size, nb), k, k, k)
  {
    hide Next, OpStep, RowOps, StepOps;
    if k > 0 {
      StepsAdvance(l, u, size, nb, m, k - 1);
      RunOpsAppend(Ops(k - 1, nb), StepOps(k - 1, nb, nb), m, size, nb);
      var m1 := RunOps(Ops(k - 1, nb), m, size, nb);
      StepAdvances(l, u, size, nb, m1, k - 1, nb);
      NextStep(l, u, size, nb, RunOps(StepOps(k - 1, nb, nb), m1, size, nb), k - 1);
    }
  }

  /** The matrix m holds the product of the factors. */
  ghost predicate IsProduct(l: Factor, u: Factor, size: int, m: Matrix) {
    forall r, c | 0 <= r < size && 0 <= c < size :: Elem(r, c) in m && m[Elem(r, c)] == Tail(l, u, size, 0, r, c)
  }

  ghost predicate HoldsFactors(l: Factor, u: Factor, size: int, m: Matrix) {
    forall r, c | 0 <= r < size && 0 <= c < size ::
      Elem(r, c) in m && m[Elem(r, c)] == if c < r then l(r, c) else u(r, c)
  }

  lemma SequentialFactorises(l: Factor, u: Factor, size: int, nb: int, m: Matrix)
    requires nb >= 1 && size >= 0 && Factors(l, u, size) && IsProduct(l, u, size, m)
    ensures HoldsFactors(l, u, size, Sequential(OpBodies(Ops(nb, nb), size, nb), m))
  {
    StartEnds(size, nb);
    forall a, b | 0 <= a < nb && 0 <= b < nb
      ensures BlockHasLevel(l, u, size, nb, m, LevelOf(size, nb, 0, 0, 0, a, b), a, b)
    {
      StartFacts(size, nb, a);
      StartFacts(size, nb, b);
    }
    StepsAdvance(l, u, size, nb, m, nb);
    SequentialIsRunOps(Ops(nb, nb), m, size, nb);
    var end := RunOps(Ops(nb, nb), m, size, nb);
    forall r, c | 0 <= r < size && 0 <= c < size
      ensures Elem(r, c) in end && end[Elem(r, c)] == if c < r then l(r, c) else u(r, c)
    {
      var a := FindBlock(size, nb, r, nb);
      var b := FindBlock(size, nb, c, nb);
      assert BlockHasLevel(l, u, size, nb, end, LevelOf(size, nb, nb, nb, nb, a, b), a, b);
      assert HasLevel(l, u, size, end, size, r, c);
    }
  }

  /** Main result: started on a product of factors, every complete schedule that the runtime's
      dependence edges allow leaves the factors, however the single updates of the tasks
      interleave. */
  lemma EveryScheduleFactorises(l: Factor, u: Factor, size: int, nb: int, m: Matrix, sched: seq<nat>,
                                end: State<LuSteps.Loc, real>)
    requires nb >= 1 && size >= 0 && Factors(l, u, size) && IsProduct(l, u, size, m)
    requires var g, bodies := DependGraph(Program(Ops(nb, nb))), OpBodies(Ops(nb, nb), size, nb);
             && WellFormed(g) && |g| == |bodies| == |end.pc|
             && Reaches(g, bodies, Initial(bodies, m), sched, end) && AllFinished(bodies, end.pc)
    ensures HoldsFactors(l, u, size, end.store)
  {
    var g, bodies := DependGraph(Program(Ops(nb, nb))), OpBodies(Ops(nb, nb), size, nb);
    OpBodiesStay(size, nb);
    GraphOrdersConflicts(bodies, size, nb);
    Determinacy(g, bodies, m, sched, end);
    SequentialFactorises(l, u, size, nb, m);
  }
}
