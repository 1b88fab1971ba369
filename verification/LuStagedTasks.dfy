/** The tasks of one stage of omp-lu.c, interleaved at single matrix updates: there is no future
    between them, and none is needed. */
module LuStagedTasks {
  import opened TaskGraph
  import opened LuSteps
  import opened LuActions
  import opened LuStaged
  import opened Blocks

  datatype Rect = Rect(r0: int, r1: int, c0: int, c1: int)

  /** The block a task updates. */
  function RectOf(t: Task, p0: int, n: int, count: int): Rect
    requires count >= 1
  {
    var p1 := Edge(p0, n, count, 1);
    match t
    case Column(i) => Rect(Edge(p0, n, count, i), Edge(p0, n, count, i + 1), p0, p1)
    case Row(i) => Rect(p0, p1, Edge(p0, n, count, i), Edge(p0, n, count, i + 1))
    case Inner(i, j) => Rect(Edge(p0, n, count, i), Edge(p0, n, count, i + 1), Edge(p0, n, count, j),
                             Edge(p0, n, count, j + 1))
  }

  function TaskActs(t: Task, p0: int, n: int, count: int): seq<Update>
    requires count >= 1
  {
    var b := RectOf(t, p0, n, count);
    BlockActs(p0, Edge(p0, n, count, 1), b.r0, b.r1, b.c0, b.c1)
  }

  function TaskBodies(tasks: seq<Task>, p0: int, n: int, count: int): Bodies<LuSteps.Loc, real>
    requires count >= 1
  {
    seq(|tasks|, k requires 0 <= k < |tasks| => TaskActs(tasks[k], p0, n, count))
  }

  /** Tasks without `depend` wait for nothing. */
  function NoFutures(k: nat): (g: Graph)
    ensures WellFormed(g) && |g| == k
  {
    seq(k, _ => {})
  }

  /** A task of stage 2 or of stage 3. */
  predicate InStage(t: Task, second: bool, count: int) {
    && (second <==> !t.Inner?) && 1 <= t.i < count && (t.Inner? ==> 1 <= t.j < count)
  }

  /** The tasks are those of the stage, each once, in some order. */
  ghost predicate Enumerates(tasks: seq<Task>, second: bool, count: int) {
    && (forall k | 0 <= k < |tasks| :: InStage(tasks[k], second, count))
    && (forall k, h | 0 <= k < h < |tasks| :: tasks[k] != tasks[h])
    && forall t: Task | InStage(t, second, count) :: t in tasks
  }

  // ------------------------------------------------ the tasks of a stage do not conflict

  /** Where a task of the stage works. */
  lemma RectFacts(t: Task, second: bool, p0: int, n: int, count: int)
    requires count >= 1 && 0 <= p0 <= n && InStage(t, second, count)
    ensures var b, p1 := RectOf(t, p0, n, count), Edge(p0, n, count, 1);
            && (t.Column? ==> p1 <= b.r0 && b.c0 == p0 && b.c1 == p1)
            && (t.Row? ==> p1 <= b.c0 && b.r0 == p0 && b.r1 == p1)
            && (t.Inner? ==> p1 <= b.r0 && p1 <= b.c0)
  {
    Edges(p0, n, count, t.i);
    if t.Inner? { Edges(p0, n, count, t.j); }
  }

  /** Two tasks of one stage have no row in common, or no column. */
  lemma RectsApart(t: Task, t': Task, second: bool, p0: int, n: int, count: int)
    requires count >= 1 && 0 <= p0 <= n && InStage(t, second, count) && InStage(t', second, count) && t != t'
    ensures var b, b' := RectOf(t, p0, n, count), RectOf(t', p0, n, count);
            b.r1 <= b'.r0 || b'.r1 <= b.r0 || b.c1 <= b'.c0 || b'.c1 <= b.c0
  {
    RectFacts(t, second, p0, n, count);
    RectFacts(t', second, p0, n, count);
    if t.i != t'.i {
      BlocksApart(p0, n, count, t.i, t.i, t'.i, t'.i);
    } else if t.Inner? {
      BlocksApart(p0, n, count, t.i, t.j, t'.i, t'.j);
    }
  }

  /** An update of one task writes nothing that an update of another reads or writes. */
  lemma TargetNotUsed(t: Task, t': Task, second: bool, p0: int, n: int, count: int, r: int, c: int, r': int, c': int,
                      i: int)
    requires count >= 1 && 0 <= p0 <= n && InStage(t, second, count) && InStage(t', second, count) && t != t'
    requires In(Elem(r, c), RectOf(t, p0, n, count).r0, RectOf(t, p0, n, count).r1, RectOf(t, p0, n, count).c0,
                RectOf(t, p0, n, count).c1)
    requires In(Elem(r', c'), RectOf(t', p0, n, count).r0, RectOf(t', p0, n, count).r1, RectOf(t', p0, n, count).c0,
                RectOf(t', p0, n, count).c1)
    requires p0 <= i < Edge(p0, n, count, 1)
    ensures Elem(r, c) !in {Elem(r', c'), Elem(r', i), Elem(i, c')}
  {
    RectFacts(t, second, p0, n, count);
    RectFacts(t', second, p0, n, count);
    RectsApart(t, t', second, p0, n, count);
    hide RectOf, Edge;
  }

  lemma TasksIndependent(t: Task, t': Task, second: bool, p0: int, n: int, count: int)
    requires count >= 1 && 0 <= p0 <= n && InStage(t, second, count) && InStage(t', second, count) && t != t'
    ensures IndependentBodies(TaskActs(t, p0, n, count), TaskActs(t', p0, n, count))
  {
    hide BlockActs, Edge, RectOf;
    var p1, b, b' := Edge(p0, n, count, 1), RectOf(t, p0, n, count), RectOf(t', p0, n, count);
    var xs, ys := TaskActs(t, p0, n, count), TaskActs(t', p0, n, count);
    BlockLocal(p0, p1, p1, b.r0, b.r1, b.c0, b.c1);
    BlockLocal(p0, p1, p1, b'.r0, b'.r1, b'.c0, b'.c1);
    forall k, h | 0 <= k < |xs| && 0 <= h < |ys| ensures Independent(xs[k], ys[h]) {
      assert LocalUpdate(xs[k], p0, p1, b.r0, b.r1, b.c0, b.c1)
             && LocalUpdate(ys[h], p0, p1, b'.r0, b'.r1, b'.c0, b'.c1);
      var i, r, c :| p0 <= i < p1 && b.r0 <= r < b.r1 && b.c0 <= c < b.c1
                     && xs[k].target == Elem(r, c) && xs[k].uses <= {Elem(r, c), Elem(r, i), Elem(i, c)};
      var i', r', c' :| p0 <= i' < p1 && b'.r0 <= r' < b'.r1 && b'.c0 <= c' < b'.c1
                        && ys[h].target == Elem(r', c') && ys[h].uses <= {Elem(r', c'), Elem(r', i'), Elem(i', c')};
      TargetNotUsed(t, t', second, p0, n, count, r, c, r', c', i');
      TargetNotUsed(t', t, second, p0, n, count, r', c', r, c, i);
    }
  }

  /** Every interleaving of the tasks of a stage ends like running them one after the other. */
  lemma StageDeterminate(tasks: seq<Task>, second: bool, p0: int, n: int, count: int, m: Matrix, sched: seq<nat>,
                         end: State<LuSteps.Loc, real>)
    requires count >= 1 && 0 <= p0 <= n && Enumerates(tasks, second, count)
    requires var bodies := TaskBodies(tasks, p0, n, count);
             && |end.pc| == |tasks| && Reaches(NoFutures(|tasks|), bodies, Initial(bodies, m), sched, end)
             && AllFinished(bodies, end.pc)
    ensures end.store == Sequential(TaskBodies(tasks, p0, n, count), m)
  {
    hide TaskActs, IndependentBodies, Reaches, NoFutures;
    var bodies := TaskBodies(tasks, p0, n, count);
    forall k, h | 0 <= k < h < |bodies| ensures IndependentBodies(bodies[k], bodies[h]) {
      TasksIndependent(tasks[k], tasks[h], second, p0, n, count);
    }
    Determinacy(NoFutures(|tasks|), bodies, m, sched, end);
  }

  // ------------------------------------------------ what they leave

  /** The tasks of the stage that are not among the first k. */
  ghost function Pending(tasks: seq<Task>, k: nat): set<Task>
    requires k <= |tasks|
  {
    set h | k <= h < |tasks| :: tasks[h]
  }

  lemma PendingNext(tasks: seq<Task>, second: bool, count: int, k: nat)
    requires k < |tasks| && Enumerates(tasks, second, count)
    ensures tasks[k] in Pending(tasks, k) && Pending(tasks, k + 1) == Pending(tasks, k) - {tasks[k]}
  {
  }

  lemma SequentialNext(tasks: seq<Task>, p0: int, n: int, count: int, m: Matrix, k: nat)
    requires count >= 1 && k < |tasks|
    ensures var b := RectOf(tasks[k], p0, n, count);
            Sequential(TaskBodies(tasks[..k + 1], p0, n, count), m) ==
            BlockStep(Sequential(TaskBodies(tasks[..k], p0, n, count), m), p0, Edge(p0, n, count, 1), b.r0, b.r1, b.c0,
                      b.c1)
  {
    hide Edge, BlockActs, BlockStep, RectOf;
    var b := RectOf(tasks[k], p0, n, count);
    assert TaskBodies(tasks[..k + 1], p0, n, count)[..k] == TaskBodies(tasks[..k], p0, n, count);
    RunBlock(Sequential(TaskBodies(tasks[..k], p0, n, count), m), p0, Edge(p0, n, count, 1), b.r0, b.r1, b.c0, b.c1);
  }

  lemma {:induction false} Stage2Prefix(l: Factor, u: Factor, n: int, m: Matrix, p0: int, count: int, tasks: seq<Task>,
                                        k: nat)
    requires count >= 1 && 0 <= p0 <= n && Factors(l, u, n) && Enumerates(tasks, true, count) && k <= |tasks|
    requires Stage2State(l, u, n, m, p0, Edge(p0, n, count, 1), count, Pending(tasks, 0))
    ensures var m' := Sequential(TaskBodies(tasks[..k], p0, n, count), m);
            && Stage2State(l, u, n, m', p0, Edge(p0, n, count, 1), count, Pending(tasks, k))
            && SameExceptBands(m, m', n, p0, Edge(p0, n, count, 1))
  {
    hide Stage2State, Edge, Factors, BlockStep, TaskBodies;
    Edges(p0, n, count, 0);
    if k == 0 {
      EmptyBodies(tasks[..0], p0, n, count);
    } else {
      var t, p1 := tasks[k - 1], Edge(p0, n, count, 1);
      Stage2Prefix(l, u, n, m, p0, count, tasks, k - 1);
      PendingNext(tasks, true, count, k - 1);
      SequentialNext(tasks, p0, n, count, m, k - 1);
      var before := Sequential(TaskBodies(tasks[..k - 1], p0, n, count), m);
      var at, size := Edge(p0, n, count, t.i), Edge(p0, n, count, t.i + 1) - Edge(p0, n, count, t.i);
      if t.Column? {
        ColumnTask(l, u, n, before, p0, p1 - p0, count, Pending(tasks, k - 1), t.i, at, size);
      } else {
        RowTask(l, u, n, before, p0, p1 - p0, count, Pending(tasks, k - 1), t.i, at, size);
      }
    }
  }

  lemma EmptyBodies(tasks: seq<Task>, p0: int, n: int, count: int)
    requires count >= 1 && tasks == []
    ensures TaskBodies(tasks, p0, n, count) == []
  {
  }

  lemma {:induction false} Stage3Prefix(l: Factor, u: Factor, n: int, m: Matrix, p0: int, count: int, tasks: seq<Task>,
                                        k: nat)
    requires count >= 1 && 0 <= p0 <= n && Factors(l, u, n) && Enumerates(tasks, false, count) && k <= |tasks|
    requires Stage3State(l, u, n, m, p0, Edge(p0, n, count, 1), count, Pending(tasks, 0))
    ensures var m' := Sequential(TaskBodies(tasks[..k], p0, n, count), m);
            && Stage3State(l, u, n, m', p0, Edge(p0, n, count, 1), count, Pending(tasks, k))
            && SameExceptInner(m, m', n, Edge(p0, n, count, 1))
  {
    hide Stage3State, Edge, Factors, BlockStep, TaskBodies;
    Edges(p0, n, count, 0);
    if k == 0 {
      EmptyBodies(tasks[..0], p0, n, count);
    } else {
      var t, p1 := tasks[k - 1], Edge(p0, n, count, 1);
      Stage3Prefix(l, u, n, m, p0, count, tasks, k - 1);
      PendingNext(tasks, false, count, k - 1);
      SequentialNext(tasks, p0, n, count, m, k - 1);
      var before := Sequential(TaskBodies(tasks[..k - 1], p0, n, count), m);
      var r0, c0 := Edge(p0, n, count, t.i), Edge(p0, n, count, t.j);
      InnerTask(l, u, n, before, p0, p1 - p0, count, Pending(tasks, k - 1), t.i, t.j,
                r0, Edge(p0, n, count, t.i + 1) - r0, c0, Edge(p0, n, count, t.j + 1) - c0);
    }
  }

  /** Main result on stage 2: created in any order and interleaved at single updates, the column and
      row tasks leave the pivot column and row final and change nothing else. */
  lemma Stage2Interleaved(l: Factor, u: Factor, n: int, m: Matrix, p0: int, count: int, tasks: seq<Task>,
                          sched: seq<nat>, end: State<LuSteps.Loc, real>)
    requires count >= 1 && 0 <= p0 <= n && Factors(l, u, n) && Enumerates(tasks, true, count)
    requires var p1 := Edge(p0, n, count, 1);
             && RegionHasLevel(l, u, n, m, n, p0, p1, p0, p1) && RegionHasLevel(l, u, n, m, p0, p1, n, p0, p1)
             && RegionHasLevel(l, u, n, m, p0, p0, p1, p1, n)
    requires var bodies := TaskBodies(tasks, p0, n, count);
             && |end.pc| == |tasks| && Reaches(NoFutures(|tasks|), bodies, Initial(bodies, m), sched, end)
             && AllFinished(bodies, end.pc)
    ensures Stage2State(l, u, n, end.store, p0, Edge(p0, n, count, 1), count, {})
    ensures SameExceptBands(m, end.store, n, p0, Edge(p0, n, count, 1))
  {
    hide Stage2State, RegionHasLevel, Factors, Reaches, NoFutures, TaskBodies, AllFinished, Edge;
    StageDeterminate(tasks, true, p0, n, count, m, sched, end);
    Edges(p0, n, count, 0);
    forall i | 1 <= i < count ensures Column(i) in Pending(tasks, 0) && Row(i) in Pending(tasks, 0) {
      assert InStage(Column(i), true, count) && InStage(Row(i), true, count);
    }
    Stage2Begins(l, u, n, m, p0, Edge(p0, n, count, 1), count, Pending(tasks, 0));
    Stage2Prefix(l, u, n, m, p0, count, tasks, |tasks|);
    assert tasks[..|tasks|] == tasks && Pending(tasks, |tasks|) == {};
  }

  /** Main result on stage 3: the same for the inner tasks. */
  lemma Stage3Interleaved(l: Factor, u: Factor, n: int, m: Matrix, p0: int, count: int, tasks: seq<Task>,
                          sched: seq<nat>, end: State<LuSteps.Loc, real>)
    requires count >= 1 && 0 <= p0 <= n && Factors(l, u, n) && Enumerates(tasks, false, count)
    requires var p1 := Edge(p0, n, count, 1);
             && RegionHasLevel(l, u, n, m, n, p1, n, p0, p1) && RegionHasLevel(l, u, n, m, n, p0, p1, p1, n)
             && RegionHasLevel(l, u, n, m, p0, p1, n, p1, n)
    requires var bodies := TaskBodies(tasks, p0, n, count);
             && |end.pc| == |tasks| && Reaches(NoFutures(|tasks|), bodies, Initial(bodies, m), sched, end)
             && AllFinished(bodies, end.pc)
    ensures Stage3State(l, u, n, end.store, p0, Edge(p0, n, count, 1), count, {})
    ensures SameExceptInner(m, end.store, n, Edge(p0, n, count, 1))
  {
    hide Stage3State, RegionHasLevel, Factors, Reaches, NoFutures, TaskBodies, AllFinished, Edge;
    StageDeterminate(tasks, false, p0, n, count, m, sched, end);
    Edges(p0, n, count, 0);
    forall i, j | 1 <= i < count && 1 <= j < count ensures Inner(i, j) in Pending(tasks, 0) {
      assert InStage(Inner(i, j), false, count);
    }
    Stage3Begins(l, u, n, m, p0, Edge(p0, n, count, 1), count, Pending(tasks, 0));
    Stage3Prefix(l, u, n, m, p0, count, tasks, |tasks|);
    assert tasks[..|tasks|] == tasks && Pending(tasks, |tasks|) == {};
  }
}
