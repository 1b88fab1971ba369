/** lu-dataflow.cpp: LU as a graph of `depend` tasks.  The declared dependences name entries of
    two block tables; the tasks work on blocks of the global matrix. */
module LuDataflow {
  import opened TaskGraph
  import opened DependTasks
  import opened LuSteps
  import opened Blocks

  /** The task of elimination step `step` on block (row, col): diag_op if row == col == step,
      row_op if only row == step, col_op if only col == step, inner_op otherwise. */
  datatype Op = Op(step: int, row: int, col: int)

  type Entries = LuSteps.Loc

  predicate ValidOp(op: Op, nb: int) {
    0 <= op.step <= op.row < nb && op.step <= op.col < nb
  }

  /** The dependence list of an operation; step 0 updates table 0 in place. */
  function DeclOf(op: Op): Decl<Entries> {
    var k, i, j := op.step, op.row, op.col;
    var pivots :=
      if i == k && j == k then []
      else if i == k || j == k then [Dep(Entry(k % 2, k, k), true, false)]
      else [Dep(Entry(k % 2, k, j), true, false), Dep(Entry(k % 2, i, k), true, false)];
    if k == 0 then Decl(pivots + [Dep(Entry(0, i, j), true, true)], [])
    else Decl([Dep(Entry((k - 1) % 2, i, j), true, false)] + pivots + [Dep(Entry(k % 2, i, j), false, true)], [])
  }

  // ------------------------------------------------ creation order

  function RowOps(k: int, i: int, hi: int): seq<Op> {
    if hi <= k then [] else seq(hi - k, c => Op(k, i, k + c))
  }

  lemma RowOpsNext(k: int, i: int, j: int)
    requires k <= j
    ensures RowOps(k, i, j + 1) == RowOps(k, i, j) + [Op(k, i, j)]
  {
  }

  function StepOps(k: int, hi: int, nb: int): seq<Op>
    decreases hi - k
  {
    if hi <= k then [] else StepOps(k, hi - 1, nb) + RowOps(k, hi - 1, nb)
  }

  /** All operations of the first k steps, in the order the loops create their tasks. */
  function Ops(k: int, nb: int): seq<Op>
    decreases k
  {
    if k <= 0 then [] else Ops(k - 1, nb) + StepOps(k - 1, nb, nb)
  }

  function Program(ops: seq<Op>): seq<Decl<Entries>> {
    seq(|ops|, t requires 0 <= t < |ops| => DeclOf(ops[t]))
  }

  lemma ProgramGrows(ops: seq<Op>, op: Op)
    ensures Program(ops + [op]) == Program(ops) + [DeclOf(op)]
  {
  }

  /** The tasks of one step on one row of blocks: diag_op and the row_op tasks when i == k, one
      col_op and the inner_op tasks below. */
  method CreateRow(parent: TaskData<Entries>, team: Team, k: int, i: int, nb: int, ghost ops: seq<Op>, g0: Graph)
    returns (g: Graph)
    requires team.numThreads > 1 && k <= nb && Submitted(parent, Program(ops), g0)
    modifies parent, team
    ensures Submitted(parent, Program(ops + RowOps(k, i, nb)), g)
  {
    hide Submitted;
    g := g0;
    assert ops + RowOps(k, i, k) == ops;
    for j := k to nb
      invariant Submitted(parent, Program(ops + RowOps(k, i, j)), g)
    {
      RowOpsNext(k, i, j);
      assert ops + RowOps(k, i, j + 1) == (ops + RowOps(k, i, j)) + [Op(k, i, j)];
      ProgramGrows(ops + RowOps(k, i, j), Op(k, i, j));
      g := Submit(parent, team, DeclOf(Op(k, i, j)), Program(ops + RowOps(k, i, j)), g);
    }
  }

  method CreateStep(parent: TaskData<Entries>, team: Team, k: int, nb: int, ghost ops: seq<Op>, g0: Graph)
    returns (g: Graph)
    requires team.numThreads > 1 && k <= nb && Submitted(parent, Program(ops), g0)
    modifies parent, team
    ensures Submitted(parent, Program(ops + StepOps(k, nb, nb)), g)
  {
    hide Submitted;
    g := g0;
    assert ops + StepOps(k, k, nb) == ops;
    for i := k to nb
      invariant Submitted(parent, Program(ops + StepOps(k, i, nb)), g)
    {
      assert ops + StepOps(k, i + 1, nb) == (ops + StepOps(k, i, nb)) + RowOps(k, i, nb);
      g := CreateRow(parent, team, k, i, nb, ops + StepOps(k, i, nb), g);
    }
  }

  /** init_df and the loops of LU create exactly the operations of Ops, in that order, and the
      runtime gives them the dependence graph of that program. */
  method CreateTasks(parent: TaskData<Entries>, team: Team, nb: int) returns (g: Graph)
    requires team.numThreads > 1 && nb >= 1 && parent.dfMap == map[]
    modifies parent, team
    ensures g == DependGraph(Program(Ops(nb, nb)))
  {
    g := [];
    assert Submitted(parent, Program(Ops(0, nb)), g);
    for k := 0 to nb
      invariant Submitted(parent, Program(Ops(k, nb)), g)
    {
      g := CreateStep(parent, team, k, nb, Ops(k, nb), g);
    }
  }

  // ------------------------------------------------ creation order is lexicographic

  predicate Before(a: Op, b: Op) {
    || a.step < b.step
    || (a.step == b.step && (a.row < b.row || (a.row == b.row && a.col < b.col)))
  }

  ghost predicate Sorted(ops: seq<Op>) {
    forall p, q | 0 <= p < q < |ops| :: Before(ops[p], ops[q])
  }

  lemma SortedAppend(xs: seq<Op>, ys: seq<Op>)
    requires Sorted(xs) && Sorted(ys) && forall x, y | x in xs && y in ys :: Before(x, y)
    ensures Sorted(xs + ys)
  {
  }

  lemma RowOpsAre(k: int, i: int, hi: int)
    ensures Sorted(RowOps(k, i, hi))
    ensures forall op :: op in RowOps(k, i, hi) <==> op.step == k && op.row == i && k <= op.col < hi
  {
    forall op: Op | op.step == k && op.row == i && k <= op.col < hi ensures op in RowOps(k, i, hi) {
      assert RowOps(k, i, hi)[op.col - k] == op;
    }
  }

  lemma {:induction false} StepOpsAre(k: int, hi: int, nb: int)
    ensures Sorted(StepOps(k, hi, nb))
    ensures forall op :: op in StepOps(k, hi, nb) <==> op.step == k && k <= op.row < hi && k <= op.col < nb
    decreases hi - k
  {
    hide RowOps;
    if k < hi {
      var front, row := StepOps(k, hi - 1, nb), RowOps(k, hi - 1, nb);
      StepOpsAre(k, hi - 1, nb);
      RowOpsAre(k, hi - 1, nb);
      SortedAppend(front, row);
    }
  }

  /** The program holds every valid operation, in lexicographic order of step, row and column. */
  lemma {:induction false} OpsAre(k: int, nb: int)
    requires 0 <= k <= nb
    ensures Sorted(Ops(k, nb))
    ensures forall op :: op in Ops(k, nb) <==> ValidOp(op, nb) && op.step < k
  {
    hide RowOps, StepOps;
    if k > 0 {
      var front, step := Ops(k - 1, nb), StepOps(k - 1, nb, nb);
      OpsAre(k - 1, nb);
      StepOpsAre(k - 1, nb, nb);
      SortedAppend(front, step);
    }
  }

  lemma PlaceOf(op: Op, nb: int) returns (p: nat)
    requires ValidOp(op, nb)
    ensures p < |Ops(nb, nb)| && Ops(nb, nb)[p] == op
  {
    OpsAre(nb, nb);
    p :| 0 <= p < |Ops(nb, nb)| && Ops(nb, nb)[p] == op;
  }

  lemma PlacesSorted(nb: int, p: nat, q: nat)
    requires 0 <= nb && p < q < |Ops(nb, nb)|
    ensures Before(Ops(nb, nb)[p], Ops(nb, nb)[q])
  {
    OpsAre(nb, nb);
  }

  lemma PlacesOrdered(nb: int, p: nat, q: nat)
    requires 0 <= nb && p < |Ops(nb, nb)| && q < |Ops(nb, nb)|
    requires Before(Ops(nb, nb)[p], Ops(nb, nb)[q])
    ensures p < q
  {
    if q < p { PlacesSorted(nb, q, p); }
  }

  lemma PlaceUnique(nb: int, p: nat, q: nat)
    requires 0 <= nb && p < |Ops(nb, nb)| && q < |Ops(nb, nb)| && Ops(nb, nb)[p] == Ops(nb, nb)[q]
    ensures p == q
  {
    if p < q { PlacesSorted(nb, p, q); }
    if q < p { PlacesSorted(nb, q, p); }
  }

  // ------------------------------------------------ the declared dependences suffice

  /** The blocks an operation reads besides its own. */
  function Pivots(op: Op): set<(int, int)> {
    var k, i, j := op.step, op.row, op.col;
    if i == k && j == k then {}
    else if i == k || j == k then {(k, k)}
    else {(k, j), (i, k)}
  }

  /** A task writes the entry of its block in the table of its step; it names that entry, the entry
      of the step before, and those of its pivots. */
  lemma DeclIsExact(op: Op, e: Entries)
    requires op.step >= 0
    ensures DeclOf(op).Writes(e) <==> e == Entry(op.step % 2, op.row, op.col)
    ensures DeclOf(op).Names(e) <==>
            || e == Entry(op.step % 2, op.row, op.col)
            || (op.step > 0 && e == Entry((op.step - 1) % 2, op.row, op.col))
            || (e.Entry? && e.buf == op.step % 2 && (e.i, e.j) in Pivots(op))
  {
    if e.Entry? { DeclNames(op, e.i, e.j); }
    DeclNames(op, 0, 0);
  }

  lemma DeclNames(op: Op, a: int, b: int)
    ensures DeclOf(op).Writes(Entry(op.step % 2, op.row, op.col))
    ensures op.step > 0 ==> DeclOf(op).Names(Entry((op.step - 1) % 2, op.row, op.col))
    ensures (a, b) in Pivots(op) ==> DeclOf(op).Names(Entry(op.step % 2, a, b))
  {
    var all := DeclOf(op).All();
    assert all[|all| - 1].addr == Entry(op.step % 2, op.row, op.col) && all[|all| - 1].isOut;
    if op.step > 0 {
      assert all[0].addr == Entry((op.step - 1) % 2, op.row, op.col);
    }
    if (a, b) in Pivots(op) {
      var first := if op.step == 0 then 0 else 1;
      assert all[first].addr == Entry(op.step % 2, a, b) || all[first + 1].addr == Entry(op.step % 2, a, b);
    }
  }

  lemma GraphFacts(nb: int)
    requires nb >= 0
    ensures WellFormed(DependGraph(Program(Ops(nb, nb)))) && |DependGraph(Program(Ops(nb, nb)))| == |Ops(nb, nb)|
  {
    DependGraphWellFormed(Program(Ops(nb, nb)));
  }

  /** The operations on one block follow each other step by step. */
  lemma {:induction false} BlockChain(nb: int, p: nat, q: nat)
    requires nb >= 0 && p < |Ops(nb, nb)| && q < |Ops(nb, nb)| && WellFormed(DependGraph(Program(Ops(nb, nb))))
    requires var x, y := Ops(nb, nb)[p], Ops(nb, nb)[q]; x.row == y.row && x.col == y.col && x.step < y.step
    ensures p < q && Path(DependGraph(Program(Ops(nb, nb))), p, q)
    decreases Ops(nb, nb)[q].step
  {
    hide Ops, Path, DependGraph, DeclOf;
    GraphFacts(nb);
    var ops := Ops(nb, nb);
    var x, y := ops[p], ops[q];
    OpsAre(nb, nb);
    assert x in ops && y in ops;
    PlacesOrdered(nb, p, q);
    var before := Op(y.step - 1, y.row, y.col);
    var r := PlaceOf(before, nb);
    PlacesOrdered(nb, r, q);
    DeclNames(before, 0, 0);
    DeclNames(y, 0, 0);
    WriterPrecedesUser(Program(ops), r, q, Entry((y.step - 1) % 2, y.row, y.col));
    if x.step < y.step - 1 {
      BlockChain(nb, p, r);
      PathTrans(DependGraph(Program(ops)), p, r, q);
    } else {
      PlaceUnique(nb, p, r);
    }
  }

  /** An operation on block (a, b) up to step k precedes the operations of step k that read the
      block as a pivot. */
  lemma PivotChain(nb: int, p: nat, q: nat)
    requires nb >= 0 && p < |Ops(nb, nb)| && q < |Ops(nb, nb)| && WellFormed(DependGraph(Program(Ops(nb, nb))))
    requires var x, y := Ops(nb, nb)[p], Ops(nb, nb)[q]; (x.row, x.col) in Pivots(y)
    ensures p < q && Path(DependGraph(Program(Ops(nb, nb))), p, q)
  {
    hide Ops, Path, DependGraph, DeclOf;
    GraphFacts(nb);
    var ops := Ops(nb, nb);
    var x, y := ops[p], ops[q];
    OpsAre(nb, nb);
    assert x in ops && y in ops;
    var pivot := Op(y.step, x.row, x.col);
    var r := PlaceOf(pivot, nb);
    PlacesOrdered(nb, r, q);
    DeclNames(pivot, 0, 0);
    DeclNames(y, x.row, x.col);
    WriterPrecedesUser(Program(ops), r, q, Entry(y.step % 2, x.row, x.col));
    PlacesOrdered(nb, p, q);
    if x.step < y.step {
      BlockChain(nb, p, r);
      PathTrans(DependGraph(Program(ops)), p, r, q);
    } else {
      PlaceUnique(nb, p, r);
    }
  }

  /** Location l belongs to block (i, j): a cell of the block, or one of its two entries. */
  ghost predicate InBlock(l: LuSteps.Loc, i: int, j: int, size: int, nb: int)
    requires nb >= 1
  {
    match l
    case Elem(r, c) =>
      && BlockStart(size, nb, i) <= r < BlockStart(size, nb, i + 1)
      && BlockStart(size, nb, j) <= c < BlockStart(size, nb, j + 1)
    case Entry(_, a, b) => a == i && b == j
  }

  lemma InOneBlock(l: LuSteps.Loc, i: int, j: int, i': int, j': int, size: int, nb: int)
    requires nb >= 1 && size >= 0 && 0 <= i && 0 <= j && 0 <= i' && 0 <= j'
    requires InBlock(l, i, j, size, nb) && InBlock(l, i', j', size, nb)
    ensures i == i' && j == j'
  {
    if i < i' { StartMonotone(size, nb, i + 1, i'); }
    if i' < i { StartMonotone(size, nb, i' + 1, i); }
    if j < j' { StartMonotone(size, nb, j + 1, j'); }
    if j' < j { StartMonotone(size, nb, j' + 1, j); }
  }

  /** The action of an operation's task keeps to the block it updates and the blocks it reads. */
  ghost predicate Stays<V>(op: Op, a: Action<LuSteps.Loc, V>, size: int, nb: int)
    requires nb >= 1
  {
    && InBlock(a.target, op.row, op.col, size, nb)
    && forall l | l in a.uses :: InBlock(l, op.row, op.col, size, nb) || exists b | b in Pivots(op) ::
                                   InBlock(l, b.0, b.1, size, nb)
  }

  ghost predicate BodiesStay<V>(bodies: Bodies<LuSteps.Loc, V>, size: int, nb: int)
    requires nb >= 1
  {
    && |bodies| == |Ops(nb, nb)|
    && forall p, k | 0 <= p < |bodies| && 0 <= k < |bodies[p]| :: Stays(Ops(nb, nb)[p], bodies[p][k], size, nb)
  }

  /** Two operations that touch a common location, one of them writing it, work on the same
      block or one of them reads the other's block as a pivot. */
  lemma ConflictKinds<V>(x: Op, y: Op, a: Action<LuSteps.Loc, V>, b: Action<LuSteps.Loc, V>, size: int, nb: int)
    requires nb >= 1 && size >= 0 && ValidOp(x, nb) && ValidOp(y, nb)
    requires Stays(x, a, size, nb) && Stays(y, b, size, nb) && !Independent(a, b)
    ensures (x.row == y.row && x.col == y.col) || (x.row, x.col) in Pivots(y) || (y.row, y.col) in Pivots(x)
  {
    if InBlock(a.target, y.row, y.col, size, nb) {
      InOneBlock(a.target, x.row, x.col, y.row, y.col, size, nb);
    } else if a.target in b.uses {
      var v :| v in Pivots(y) && InBlock(a.target, v.0, v.1, size, nb);
      InOneBlock(a.target, x.row, x.col, v.0, v.1, size, nb);
    } else if InBlock(b.target, x.row, x.col, size, nb) {
      InOneBlock(b.target, x.row, x.col, y.row, y.col, size, nb);
    } else {
      var v :| v in Pivots(x) && InBlock(b.target, v.0, v.1, size, nb);
      InOneBlock(b.target, y.row, y.col, v.0, v.1, size, nb);
    }
  }

  /** The declared dependences order every pair of conflicting tasks. */
  lemma GraphOrdersConflicts<V>(bodies: Bodies<LuSteps.Loc, V>, size: int, nb: int)
    requires nb >= 1 && size >= 0 && BodiesStay(bodies, size, nb)
    ensures var g := DependGraph(Program(Ops(nb, nb)));
            WellFormed(g) && |g| == |bodies| && ConflictsOrdered(g, bodies)
  {
    var ops, g := Ops(nb, nb), DependGraph(Program(Ops(nb, nb)));
    GraphFacts(nb);
    OpsAre(nb, nb);
    forall p, q | 0 <= p < q < |bodies| && !IndependentBodies(bodies[p], bodies[q]) ensures Path(g, p, q) {
      var i, j :| 0 <= i < |bodies[p]| && 0 <= j < |bodies[q]| && !Independent(bodies[p][i], bodies[q][j]);
      assert ops[p] in ops && ops[q] in ops && Before(ops[p], ops[q]);
      ConflictKinds(ops[p], ops[q], bodies[p][i], bodies[q][j], size, nb);
      if (ops[p].row, ops[p].col) in Pivots(ops[q]) {
        PivotChain(nb, p, q);
      } else if (ops[q].row, ops[q].col) in Pivots(ops[p]) {
        PivotChain(nb, q, p);
      } else {
        BlockChain(nb, p, q);
      }
    }
  }

  // ------------------------------------------------ the table of blocks

  /** A block descriptor: its width, the flat index of its first cell, and its height. */
  datatype Block = Block(size: int, start: int, height: int)

  /** Block (i, j) starts where row block i meets column block j. */
  function BlockAt(size: int, nb: int, i: int, j: int): Block
    requires nb >= 1
  {
    Block(BlockSize(size, nb, j), BlockStart(size, nb, i) * size + BlockStart(size, nb, j), BlockSize(size, nb, i))
  }

  lemma NextRowStart(size: int, nb: int, i: int, j: int)
    requires nb >= 1 && size >= 0 && 0 <= i
    ensures BlockAt(size, nb, i + 1, j).start == BlockAt(size, nb, i, j).start + BlockSize(size, nb, i) * size
  {
    StartNext(size, nb, i);
    Distribute(BlockStart(size, nb, i), BlockSize(size, nb, i), size);
  }

  /** The blocks tile the matrix exactly: every cell, by its flat index, lies in one block and at
      one place of it. */
  lemma BlocksTile(size: int, nb: int, r: int, c: int) returns (i: int, j: int)
    requires nb >= 1 && 0 <= r < size && 0 <= c < size
    ensures 0 <= i < nb && 0 <= j < nb && InTile(size, nb, i, j, r * size + c)
    ensures OnlyTile(size, nb, i, j, r * size + c)
  {
    var x := r * size + c;
    StartEnds(size, nb);
    i := FindBlock(size, nb, r, nb);
    j := FindBlock(size, nb, c, nb);
    TileCell(size, nb, i, j, r, c);
    forall i', j' | 0 <= i' < nb && 0 <= j' < nb && InTile(size, nb, i', j', x)
      ensures i' == i && j' == j
    {
      TileOfCell(size, nb, i', j', r, c);
      InOneBlock(Elem(r, c), i, j, i', j', size, nb);
    }
  }

  /** The flat index x is cell (dr, dc) of the block, as the kernels address it. */
  ghost predicate InTile(size: int, nb: int, i: int, j: int, x: int)
    requires nb >= 1
  {
    var b := BlockAt(size, nb, i, j);
    exists dr, dc {:trigger FlatCell(b.start, size, dr, dc)} | 0 <= dr < b.height && 0 <= dc < b.size ::
      x == FlatCell(b.start, size, dr, dc)
  }

  ghost predicate OnlyTile(size: int, nb: int, i: int, j: int, x: int)
    requires nb >= 1
  {
    forall i', j' | 0 <= i' < nb && 0 <= j' < nb && InTile(size, nb, i', j', x) :: i' == i && j' == j
  }

  function FlatCell(start: int, size: int, dr: int, dc: int): int { start + dr * size + dc }

  lemma TileCell(size: int, nb: int, i: int, j: int, r: int, c: int)
    requires nb >= 1 && size >= 0 && 0 <= i && 0 <= j && InBlock(Elem(r, c), i, j, size, nb)
    ensures InTile(size, nb, i, j, r * size + c)
  {
    StartNext(size, nb, i);
    StartNext(size, nb, j);
    var b := BlockAt(size, nb, i, j);
    var x, dr, dc := BlockStart(size, nb, i), r - BlockStart(size, nb, i), c - BlockStart(size, nb, j);
    Distribute(x, dr, size);
    assert FlatCell(b.start, size, dr, dc) == r * size + c;
  }

  lemma TileOfCell(size: int, nb: int, i: int, j: int, r: int, c: int)
    requires nb >= 1 && 0 <= i < nb && 0 <= j < nb && 0 <= r < size && 0 <= c < size
             && InTile(size, nb, i, j, r * size + c)
    ensures InBlock(Elem(r, c), i, j, size, nb)
  {
    var b := BlockAt(size, nb, i, j);
    var dr, dc :| 0 <= dr < b.height && 0 <= dc < b.size && r * size + c == FlatCell(b.start, size, dr, dc);
    TileRange(size, nb, i);
    TileRange(size, nb, j);
    var x, y := BlockStart(size, nb, i), BlockStart(size, nb, j);
    Distribute(x, dr, size);
    SameCell(size, r, c, x + dr, y + dc);
  }

  lemma TileRange(size: int, nb: int, i: int)
    requires nb >= 1 && size >= 0 && 0 <= i < nb
    ensures 0 <= BlockStart(size, nb, i)
            && BlockStart(size, nb, i) + BlockSize(size, nb, i) == BlockStart(size, nb, i + 1) <= size
  {
    StartNext(size, nb, i);
    StartEnds(size, nb);
    StartMonotone(size, nb, i + 1, nb);
    StartMonotone(size, nb, 0, i);
  }

  /** getBlockList: table 0 is filled with the blocks of a size-by-size matrix. */
  method GetBlockList(table: array2<Block>, nb: int, size: int)
    requires nb >= 1 && size >= 0 && table.Length0 == nb && table.Length1 == nb
    modifies table
    ensures forall i, j | 0 <= i < nb && 0 <= j < nb :: table[i, j] == BlockAt(size, nb, i, j)
  {
    var height := size / nb;
    if size % nb > 0 {
      height := height + 1;
    }
    StartEnds(size, nb);
    for i := 0 to nb
      invariant forall j | 0 <= j < i :: table[0, j] == BlockAt(size, nb, 0, j)
    {
      if i < size % nb {
        table[0, i] := Block(size / nb + 1, (size / nb + 1) * i, height);
      } else {
        table[0, i] := Block(size / nb, (size / nb + 1) * (size % nb) + (size / nb) * (i - size % nb), height);
      }
    }
    for i := 1 to nb
      invariant forall a, j | 0 <= a < i && 0 <= j < nb :: table[a, j] == BlockAt(size, nb, a, j)
    {
      height := table[0, i].size;
      for j := 0 to nb
        invariant forall a, c | 0 <= a < i && 0 <= c < nb :: table[a, c] == BlockAt(size, nb, a, c)
        invariant forall c | 0 <= c < j :: table[i, c] == BlockAt(size, nb, i, c)
      {
        NextRowStart(size, nb, i - 1, j);
        table[i, j] := Block(table[0, j].size, table[i - 1, j].start + table[i - 1, 0].height * size, height);
      }
    }
  }
}
