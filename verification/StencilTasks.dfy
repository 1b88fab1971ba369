/** 1d_stencil_3_omp_task: one `depend` task per partition and time step.  Each task reads three
    partitions of one buffer and replaces one partition of the other. */
module StencilTasks {
  import opened TaskGraph
  import opened DependTasks
  import opened Stencil
  import opened Blocks

  /** Partition `part` of buffer U[buf]. */
  datatype Cell = Cell(buf: int, part: int)

  type Mem = Store<DependTasks.Loc<Cell>, seq<real>>

  type Act = Action<DependTasks.Loc<Cell>, seq<real>>

  // ------------------------------------------------ the tasks that do_work creates

  function DeclOf(t: int, i: int, np: int): Decl<Cell> {
    Decl([Dep(Cell(t % 2, Left(i, np)), true, false), Dep(Cell(t % 2, i), true, false),
          Dep(Cell(t % 2, Right(i, np)), true, false), Dep(Cell((t + 1) % 2, i), false, true)], [])
  }

  /** The first n tasks: time steps one after the other, partitions in order within a step. */
  function Program(n: nat, np: nat): seq<Decl<Cell>>
    requires np >= 1
  {
    seq(n, p requires 0 <= p < n => DeclOf(p / np, p % np, np))
  }

  lemma NextTask(t: nat, i: nat, np: nat)
    requires i < np
    ensures Place(t, i, np) >= 0 && Place(t, i, np) / np == t && Place(t, i, np) % np == i
    ensures Program(Place(t, i, np) + 1, np) == Program(Place(t, i, np), np) + [DeclOf(t, i, np)]
  {
    PlaceParts(t, i, np);
    var p := Place(t, i, np);
    SnocEqual(Program(p + 1, np), Program(p, np), DeclOf(t, i, np));
  }

  lemma PlaceParts(t: int, i: int, np: int)
    requires 0 <= i < np && t >= 0
    ensures Place(t, i, np) >= 0 && Place(t, i, np) / np == t && Place(t, i, np) % np == i
  {
    if t > 0 { MulGrows(t, np); }
    RemainderOf(Place(t, i, np), t, np);
    var q := Place(t, i, np) / np;
    Distribute(t, q - t, np);
    if q > t { MulGrows(q - t, np); }
    if q < t { MulGrows(t - q, np); Distribute(q, t - q, np); }
  }

  /** The time loop: its tasks get the dependence graph of Program. */
  method CreateTasks(parent: TaskData<Cell>, team: Team, np: nat, nt: nat) returns (g: Graph)
    requires team.numThreads > 1 && 0 < np < WORD / 2 && parent.dfMap == map[]
    modifies parent, team
    ensures g == DependGraph(Program(nt * np, np))
  {
    g := [];
    for t := 0 to nt
      invariant Submitted(parent, Program(t * np, np), g)
    {
      g := CreateStep(parent, team, np, t, g);
      Distribute(t, 1, np);
    }
  }

  method CreateStep(parent: TaskData<Cell>, team: Team, np: nat, t: nat, g0: Graph) returns (g: Graph)
    requires team.numThreads > 1 && 0 < np < WORD / 2 && Submitted(parent, Program(t * np, np), g0)
    modifies parent, team
    ensures Submitted(parent, Program(t * np + np, np), g)
  {
    hide Submitted, Program, Idx, WaitsFor, DependGraph;
    g := g0;
    for i := 0 to np
      invariant Submitted(parent, Program(t * np + i, np), g)
    {
      NextTask(t, i, np);
      IdxIsNeighbour(i, np);
      var decl := Decl([Dep(Cell(t % 2, Idx((i - 1) % WORD, np)), true, false), Dep(Cell(t % 2, i), true, false),
                        Dep(Cell(t % 2, Idx((i + 1) % WORD, np)), true, false), Dep(Cell((t + 1) % 2, i), false, true)],
                       []);
      assert decl == DeclOf(t, i, np);
      g := Submit(parent, team, decl, Program(t * np + i, np), g);
    }
  }

  // ------------------------------------------------ the edges that exist are enough

  lemma DeclNames(t: int, i: int, np: int, c: Cell)
    ensures DeclOf(t, i, np).Writes(c) <==> c == Cell((t + 1) % 2, i)
    ensures DeclOf(t, i, np).Names(c) <==>
            || c == Cell((t + 1) % 2, i)
            || (c.buf == t % 2 && c.part in {Left(i, np), i, Right(i, np)})
  {
    var all := DeclOf(t, i, np).All();
    assert all[0].addr == Cell(t % 2, Left(i, np)) && all[1].addr == Cell(t % 2, i);
    assert all[2].addr == Cell(t % 2, Right(i, np)) && all[3].addr == Cell((t + 1) % 2, i) && all[3].isOut;
  }

  /** Being a neighbour on the ring is symmetric. */
  lemma NeighbourOf(i: int, j: int, np: int)
    requires 0 <= i < np && 0 <= j < np && j in {Left(i, np), i, Right(i, np)}
    ensures i in {Left(j, np), j, Right(j, np)}
  {
  }

  lemma TaskParts(p: nat, np: nat)
    requires np >= 1
    ensures 0 <= p % np < np && p / np >= 0 && p == Place(p / np, p % np, np)
  {
  }

  lemma TasksInOrder(t: nat, i: nat, u: nat, j: nat, np: nat)
    requires i < np && j < np && t < u
    ensures 0 <= Place(t, i, np) < Place(u, j, np)
  {
    PlaceParts(t, i, np);
    Distribute(t, u - t, np);
    MulGrows(u - t, np);
  }

  lemma StepsInOrder(p: nat, q: nat, np: nat)
    requires np >= 1 && p < q
    ensures p / np <= q / np
  {
    TaskParts(p, np);
    TaskParts(q, np);
    if q / np < p / np { TasksInOrder(q / np, q % np, p / np, p % np, np); }
  }

  /** There are no write-after-read edges, but the write of a partition in step u > t follows
      every task of step t that reads it: some task of step t + 1 lies between them. */
  lemma ReaderBeforeWriter(n: nat, np: nat, r: nat, w: nat, c: Cell)
    requires np >= 1 && r < w < n && WellFormed(DependGraph(Program(n, np)))
    requires Program(n, np)[r].Names(c) && Program(n, np)[w].Writes(c)
    ensures Path(DependGraph(Program(n, np)), r, w)
  {
    hide WaitsFor, DependGraph, DeclOf, Left, Right;
    var prog := Program(n, np);
    GraphLength(prog);
    var t, i, u, j := r / np, r % np, w / np, w % np;
    TaskParts(r, np);
    TaskParts(w, np);
    StepsInOrder(r, w, np);
    DeclNames(t, i, np, c);
    DeclNames(u, j, np, c);
    if prog[r].Writes(c) {
      WriterPrecedesUser(prog, r, w, c);
    } else {
      assert u > t;
      var m := BetweenTask(n, np, t, i, u, j);
      DeclNames(t, i, np, Cell((t + 1) % 2, i));
      assert prog[r].Writes(Cell((t + 1) % 2, i));
      WriterPrecedesUser(prog, r, m, Cell((t + 1) % 2, i));
      if m < w {
        WriterPrecedesUser(prog, m, w, c);
        PathTrans(DependGraph(prog), r, m, w);
      }
    }
  }

  /** The task of the step after t on partition j uses what task (t, i) wrote. */
  lemma BetweenTask(n: nat, np: nat, t: nat, i: nat, u: nat, j: nat) returns (m: nat)
    requires np >= 1 && i < np && j < np && t < u && 0 <= Place(t, i, np) && 0 <= Place(u, j, np) < n
    requires j in {Left(i, np), i, Right(i, np)}
    ensures Place(t, i, np) < m <= Place(u, j, np)
    ensures Program(n, np)[m].Names(Cell((t + 1) % 2, i))
    ensures Program(n, np)[m].Writes(Cell((t + 2) % 2, j))
    ensures u == t + 1 ==> m == Place(u, j, np)
    ensures u > t + 1 ==> m < Place(u, j, np)
  {
    var t' := t + 1;
    m := Place(t', j, np);
    TasksInOrder(t, i, t', j, np);
    if t' < u { TasksInOrder(t', j, u, j, np); }
    PlaceParts(t', j, np);
    NeighbourOf(i, j, np);
    DeclNames(t', j, np, Cell((t + 1) % 2, i));
    DeclNames(t', j, np, Cell((t + 2) % 2, j));
  }

  lemma StencilReadersOrdered(n: nat, np: nat)
    requires np >= 1
    ensures WellFormed(DependGraph(Program(n, np))) && ReadersOrdered(Program(n, np))
  {
    var prog := Program(n, np);
    DependGraphWellFormed(prog);
    forall r, w, c | 0 <= r < w < |prog| && prog[r].Names(c) && prog[w].Writes(c)
      ensures Path(DependGraph(prog), r, w)
    {
      ReaderBeforeWriter(n, np, r, w, c);
    }
  }

  // ------------------------------------------------ the task bodies

  function Get(m: Mem, l: DependTasks.Loc<Cell>): seq<real> {
    if l in m then m[l] else []
  }

  function NewPoint(h: Heat, left: seq<real>, middle: seq<real>, right: seq<real>, j: int): real {
    if |left| == |middle| == |right| >= 2 && 0 <= j < |middle| then PartPoint(h, left, middle, right, j) else 0.0
  }

  /** One iteration of heat_part: point j of task p's local partition. */
  function PointAct(h: Heat, p: nat, a: Cell, b: Cell, c: Cell, j: nat): Act {
    Action({Shared(a), Shared(b), Shared(c)}, Own(p, j),
           v => [NewPoint(h, Get(v, Shared(a)), Get(v, Shared(b)), Get(v, Shared(c)), j)])
  }

  function Locals(p: nat, n: nat): set<DependTasks.Loc<Cell>> {
    set j: nat | j < n :: Own(p, j)
  }

  function Gather(v: Mem, p: nat, nx: nat): seq<real> {
    seq(nx, j requires 0 <= j < nx => First(Get(v, Own(p, j))))
  }

  function First(s: seq<real>): real { if s == [] then 0.0 else s[0] }

  /** The assignment to U[(t + 1) % 2][i], which moves the finished partition in. */
  function MoveAct(p: nat, d: Cell, nx: nat): Act {
    Action(Locals(p, nx), Shared(d), v => Gather(v, p, nx))
  }

  function PointActs(h: Heat, p: nat, a: Cell, b: Cell, c: Cell, n: nat): seq<Act> {
    seq(n, j requires 0 <= j < n => PointAct(h, p, a, b, c, j))
  }

  function BodyOf(h: Heat, p: nat, np: nat, nx: nat): seq<Act>
    requires np >= 1
  {
    var t, i := p / np, p % np;
    CellBody(h, p, Cell(t % 2, Left(i, np)), Cell(t % 2, i), Cell(t % 2, Right(i, np)), Cell((t + 1) % 2, i), nx)
  }

  function CellBody(h: Heat, p: nat, a: Cell, b: Cell, c: Cell, d: Cell, nx: nat): seq<Act> {
    PointActs(h, p, a, b, c, nx) + [MoveAct(p, d, nx)]
  }

  function BodiesOf(h: Heat, n: nat, np: nat, nx: nat): Bodies<DependTasks.Loc<Cell>, seq<real>>
    requires np >= 1
  {
    seq(n, p requires 0 <= p < n => BodyOf(h, p, np, nx))
  }

  lemma BodyConforms(h: Heat, n: nat, np: nat, nx: nat, p: nat, k: nat)
    requires np >= 1 && p < n && k < |BodyOf(h, p, np, nx)|
    ensures var act: Act := BodyOf(h, p, np, nx)[k];
            MayWrite(Program(n, np), p, act.target) && forall l | l in act.uses :: MayRead(Program(n, np), p, l)
  {
    var t, i := p / np, p % np;
    DeclNames(t, i, np, Cell((t + 1) % 2, i));
    DeclNames(t, i, np, Cell(t % 2, Left(i, np)));
    DeclNames(t, i, np, Cell(t % 2, i));
    DeclNames(t, i, np, Cell(t % 2, Right(i, np)));
  }

  lemma BodiesConform(h: Heat, n: nat, np: nat, nx: nat)
    requires np >= 1
    ensures Conforms(Program(n, np), BodiesOf(h, n, np, nx))
  {
    hide BodyOf;
    forall p: nat, k: nat | p < n && k < |BodyOf(h, p, np, nx)| {
      BodyConforms(h, n, np, nx, p, k);
    }
  }

  // ------------------------------------------------ what one task computes

  /** After n iterations: n local points are there and nothing shared has changed. */
  ghost predicate PointsDone(h: Heat, p: nat, a: Cell, b: Cell, c: Cell, n: nat, m: Mem, m': Mem) {
    && (forall x: Cell :: Get(m', Shared(x)) == Get(m, Shared(x)))
    && forall j: nat | j < n ::
         First(Get(m', Own(p, j))) == NewPoint(h, Get(m, Shared(a)), Get(m, Shared(b)), Get(m, Shared(c)), j)
  }

  lemma {:induction false} RunPoints(h: Heat, p: nat, a: Cell, b: Cell, c: Cell, n: nat, m: Mem)
    ensures PointsDone(h, p, a, b, c, n, m, RunBody(PointActs(h, p, a, b, c, n), m))
  {
    if n > 0 {
      RunPoints(h, p, a, b, c, n - 1, m);
      var front, act := PointActs(h, p, a, b, c, n - 1), PointAct(h, p, a, b, c, n - 1);
      assert PointActs(h, p, a, b, c, n)[..n - 1] == front;
      ExecPoint(h, p, a, b, c, n - 1, RunBody(front, m));
    }
  }

  lemma ExecPoint(h: Heat, p: nat, a: Cell, b: Cell, c: Cell, j: nat, m: Mem)
    ensures Exec(PointAct(h, p, a, b, c, j), m) ==
            m[Own(p, j) := [NewPoint(h, Get(m, Shared(a)), Get(m, Shared(b)), Get(m, Shared(c)), j)]]
  {
    var v := View(m, PointAct(h, p, a, b, c, j).uses);
    assert Get(v, Shared(a)) == Get(m, Shared(a)) && Get(v, Shared(b)) == Get(m, Shared(b))
           && Get(v, Shared(c)) == Get(m, Shared(c));
  }

  lemma ExecMove(p: nat, d: Cell, nx: nat, m: Mem)
    ensures Exec(MoveAct(p, d, nx), m) == m[Shared(d) := Gather(m, p, nx)]
  {
    var v := View(m, Locals(p, nx));
    forall j: nat | j < nx ensures Get(v, Own(p, j)) == Get(m, Own(p, j)) {
      assert Own(p, j) in Locals(p, nx);
    }
    assert Gather(v, p, nx) == Gather(m, p, nx);
  }

  /** Run alone, a task replaces its partition by heat_part of the three it reads and changes
      no other partition. */
  lemma RunCellBody(h: Heat, p: nat, a: Cell, b: Cell, c: Cell, d: Cell, nx: nat, m: Mem)
    requires |Get(m, Shared(a))| == |Get(m, Shared(b))| == |Get(m, Shared(c))| == nx >= 2
    ensures var m' := RunBody(CellBody(h, p, a, b, c, d, nx), m);
            && Get(m', Shared(d)) == PartStep(h, Get(m, Shared(a)), Get(m, Shared(b)), Get(m, Shared(c)))
            && forall x: Cell | x != d :: Get(m', Shared(x)) == Get(m, Shared(x))
  {
    hide PartPoint, PointActs, MoveAct;
    var acts := PointActs(h, p, a, b, c, nx);
    var mid := RunBody(acts, m);
    RunPoints(h, p, a, b, c, nx, m);
    assert CellBody(h, p, a, b, c, d, nx)[..|acts|] == acts;
    ExecMove(p, d, nx, mid);
    GatherPoints(h, p, a, b, c, nx, m, mid);
  }

  lemma GatherPoints(h: Heat, p: nat, a: Cell, b: Cell, c: Cell, nx: nat, m: Mem, mid: Mem)
    requires PointsDone(h, p, a, b, c, nx, m, mid)
    requires |Get(m, Shared(a))| == |Get(m, Shared(b))| == |Get(m, Shared(c))| == nx >= 2
    ensures Gather(mid, p, nx) == PartStep(h, Get(m, Shared(a)), Get(m, Shared(b)), Get(m, Shared(c)))
  {
    hide PartPoint;
  }

  // ------------------------------------------------ creation order computes the partitioned run

  /** The first i partitions of step t + 1 and all partitions of step t are in place. */
  ghost predicate Reached(h: Heat, np: nat, nx: nat, t: nat, i: nat, m: Mem)
    requires nx >= 2
  {
    var now, later := SpaceRun(h, InitialSpace(np, nx), nx, t), SpaceRun(h, InitialSpace(np, nx), nx, t + 1);
    && (forall k: nat | k < np :: Get(m, Shared(Cell(t % 2, k))) == now[k])
    && (forall k: nat | k < np && k < i :: Get(m, Shared(Cell((t + 1) % 2, k))) == later[k])
  }

  lemma TaskReaches(h: Heat, np: nat, nx: nat, p: nat, m: Mem)
    requires np >= 1 && nx >= 2 && Reached(h, np, nx, p / np, p % np, m)
    ensures Reached(h, np, nx, p / np, p % np + 1, RunBody(BodyOf(h, p, np, nx), m))
  {
    hide CellBody, Reached;
    TaskParts(p, np);
    CellReaches(h, np, nx, p, p / np, p % np, m);
  }

  lemma CellReaches(h: Heat, np: nat, nx: nat, p: nat, t: nat, i: nat, m: Mem)
    requires i < np && nx >= 2 && Reached(h, np, nx, t, i, m)
    ensures Reached(h, np, nx, t, i + 1,
                    RunBody(CellBody(h, p, Cell(t % 2, Left(i, np)), Cell(t % 2, i), Cell(t % 2, Right(i, np)),
                                     Cell((t + 1) % 2, i), nx), m))
  {
    hide CellBody, PartStep, InitialSpace, SpaceRun, RunBody, Get, Left, Right;
    var now := SpaceRun(h, InitialSpace(np, nx), nx, t);
    RingIndices(i, np);
    var l: nat, r: nat := Left(i, np), Right(i, np);
    var buf, other := t % 2, (t + 1) % 2;
    assert Get(m, Shared(Cell(buf, l))) == now[l] && Get(m, Shared(Cell(buf, i))) == now[i]
           && Get(m, Shared(Cell(buf, r))) == now[r];
    RunCellBody(h, p, Cell(buf, l), Cell(buf, i), Cell(buf, r), Cell(other, i), nx, m);
    NextPartition(h, np, nx, t, i);
  }

  lemma RingIndices(i: int, np: int)
    requires 0 <= i < np
    ensures 0 <= Left(i, np) < np && 0 <= Right(i, np) < np
  {
  }

  lemma NextPartition(h: Heat, np: nat, nx: nat, t: nat, i: nat)
    requires i < np && nx >= 2
    ensures var now := SpaceRun(h, InitialSpace(np, nx), nx, t);
            && 0 <= Left(i, np) < np && 0 <= Right(i, np) < np && |now| == np && Even(now, nx)
            && SpaceRun(h, InitialSpace(np, nx), nx, t + 1)[i] ==
               PartStep(h, now[Left(i, np)], now[i], now[Right(i, np)])
  {
    hide PartStep, InitialSpace;
  }

  /** A finished step is the start of the next. */
  lemma StepReached(h: Heat, np: nat, nx: nat, t: nat, m: Mem)
    requires nx >= 2 && Reached(h, np, nx, t, np, m)
    ensures Reached(h, np, nx, t + 1, 0, m)
  {
    hide SpaceRun;
  }

  lemma {:induction false} SequentialReaches(h: Heat, n: nat, np: nat, nx: nat, m: Mem, p: nat)
    requires np >= 1 && nx >= 2 && p <= n && Reached(h, np, nx, 0, 0, m)
    ensures Reached(h, np, nx, p / np, p % np, Sequential(BodiesOf(h, n, np, nx)[..p], m))
  {
    hide Reached, BodyOf;
    if p > 0 {
      var q, bodies := p - 1, BodiesOf(h, n, np, nx);
      SequentialReaches(h, n, np, nx, m, q);
      assert bodies[..p][..q] == bodies[..q];
      var m' := Sequential(bodies[..p], m);
      TaskReaches(h, np, nx, q, Sequential(bodies[..q], m));
      NextParts(q, np);
      if q % np == np - 1 { StepReached(h, np, nx, q / np, m'); }
    } else {
      assert BodiesOf(h, n, np, nx)[..0] == [];
      RemainderOf(0, 0, np);
      PlaceParts(0, 0, np);
    }
  }

  lemma NextParts(q: nat, np: nat)
    requires np >= 1
    ensures var p := q + 1;
            if q % np == np - 1 then p / np == q / np + 1 && p % np == 0 else p / np == q / np && p % np == q % np + 1
  {
    TaskParts(q, np);
    if q % np == np - 1 {
      Distribute(q / np, 1, np);
      PlaceParts(q / np + 1, 0, np);
    } else {
      PlaceParts(q / np, q % np + 1, np);
    }
  }

  /** The store holds the initial partitions in buffer 0. */
  ghost predicate HoldsSpace(m: Mem, buf: int, s: Space) {
    forall k: nat | k < |s| :: Get(m, Shared(Cell(buf, k))) == s[k]
  }

  /** Main result: for every schedule the runtime's futures allow, with the iterations of
      different tasks interleaved at will, the buffer that do_work returns holds the partitioned
      run; laid end to end, it is the flat run. */
  lemma EveryScheduleIsFlatRun(h: Heat, np: nat, nx: nat, nt: nat, m: Mem, sched: seq<nat>,
                               end: State<DependTasks.Loc<Cell>, seq<real>>)
    returns (result: Space)
    requires np >= 1 && nx >= 2 && HoldsSpace(m, 0, InitialSpace(np, nx))
    requires var g, bodies := DependGraph(Program(nt * np, np)), BodiesOf(h, nt * np, np, nx);
             && WellFormed(g) && |g| == |bodies| == |end.pc|
             && Reaches(g, bodies, Initial(bodies, m), sched, end) && AllFinished(bodies, end.pc)
    ensures |result| == np && HoldsSpace(end.store, nt % 2, result)
    ensures Joins(result, nx, FlatRun(h, Ramp(np * nx), nt))
  {
    var n := nt * np;
    var prog, bodies := Program(n, np), BodiesOf(h, n, np, nx);
    StencilReadersOrdered(n, np);
    BodiesConform(h, n, np, nx);
    DeclaredConflictsOrdered(prog, bodies);
    Determinacy(DependGraph(prog), bodies, m, sched, end);
    assert bodies[..n] == bodies;
    SequentialReaches(h, n, np, nx, m, n);
    PlaceParts(nt, 0, np);
    assert Place(nt, 0, np) == n;
    result := SpaceRun(h, InitialSpace(np, nx), nx, nt);
    PartitionedRefinesFlat(h, np, nx, nt);
  }
}
