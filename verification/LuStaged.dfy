/** omp-lu.c: blocked LU in stages, the tasks of one stage running in any order. */
module LuStaged {
  import opened LuSteps
  import opened LuKernels
  import opened Blocks

  datatype Task = Column(i: int) | Row(i: int) | Inner(i: int, j: int)

  /** First row (and column) of block i of the trailing matrix that starts at off. */
  function Edge(off: int, n: int, count: int, i: int): int
    requires count >= 1
  {
    off + BlockStart(n - off, count, i)
  }

  lemma Edges(off: int, n: int, count: int, i: int)
    requires count >= 1 && 0 <= off <= n && 0 <= i < count
    ensures Edge(off, n, count, 0) == off && Edge(off, n, count, count) == n
    ensures Edge(off, n, count, i + 1) == Edge(off, n, count, i) + BlockSize(n - off, count, i)
    ensures off <= Edge(off, n, count, i) <= Edge(off, n, count, i + 1) <= n
    ensures i >= 1 ==> Edge(off, n, count, 1) <= Edge(off, n, count, i)
  {
    StartEnds(n - off, count);
    StartNext(n - off, count, i);
    StartMonotone(n - off, count, 0, i);
    StartMonotone(n - off, count, i + 1, count);
    if i >= 1 { StartMonotone(n - off, count, 1, i); }
  }

  lemma EdgesApart(off: int, n: int, count: int, i: int, j: int)
    requires count >= 1 && 0 <= off <= n && 0 <= i < j < count
    ensures Edge(off, n, count, i + 1) <= Edge(off, n, count, j)
  {
    StartMonotone(n - off, count, i + 1, j);
  }

  /** Every row of the trailing matrix from block 1 on lies in one of the blocks. */
  lemma BlockOf(off: int, n: int, count: int, r: int) returns (i: int)
    requires count >= 1 && 0 <= off <= n && Edge(off, n, count, 1) <= r < n
    ensures 1 <= i < count && Edge(off, n, count, i) <= r < Edge(off, n, count, i + 1)
  {
    StartEnds(n - off, count);
    i := FindBlock(n - off, count, r - off, count);
  }

  // ------------------------------------------------ stage 2

  /** During stage 2: finished blocks of the pivot column and the pivot row are at level p1,
      the others still at level p0, and the diagonal block is final. */
  ghost predicate Stage2State(l: Factor, u: Factor, n: int, m: Matrix, p0: int, p1: int, count: int, pending: set<Task>)
    requires count >= 1
  {
    && RegionHasLevel(l, u, n, m, n, p0, p1, p0, p1)
    && (forall i | 1 <= i < count :: ColumnState(l, u, n, m, p0, p1, count, pending, i))
    && (forall i | 1 <= i < count :: RowState(l, u, n, m, p0, p1, count, pending, i))
  }

  ghost predicate ColumnState(l: Factor, u: Factor, n: int, m: Matrix, p0: int, p1: int, count: int, pending: set<Task>,
                              i: int)
    requires count >= 1
  {
    RegionHasLevel(l, u, n, m, if Column(i) in pending then p0
                   else p1, Edge(p0, n, count, i), Edge(p0, n, count, i + 1), p0, p1)
  }

  ghost predicate RowState(l: Factor, u: Factor, n: int, m: Matrix, p0: int, p1: int, count: int, pending: set<Task>,
                           i: int)
    requires count >= 1
  {
    RegionHasLevel(l, u, n, m, if Row(i) in pending then p0
                   else p1, p0, p1, Edge(p0, n, count, i), Edge(p0, n, count, i + 1))
  }

  /** The cells stage 2 may change. */
  ghost predicate Bands(x: Loc, n: int, p0: int, p1: int) {
    In(x, p1, n, p0, p1) || In(x, p0, p1, p1, n)
  }

  ghost predicate SameExceptBands(m: Matrix, m': Matrix, n: int, p0: int, p1: int) {
    m.Keys == m'.Keys && forall x | x in m && !Bands(x, n, p0, p1) :: m'[x] == m[x]
  }

  lemma ColumnTask(l: Factor, u: Factor, n: int, m: Matrix, p0: int, size0: int, count: int, pending: set<Task>, i: int,
                   at: int, size: int)
    requires Factors(l, u, n) && count >= 1 && 0 <= p0 <= p0 + size0 <= n && p0 + size0 == Edge(p0, n, count, 1)
    requires Stage2State(l, u, n, m, p0, p0 + size0, count, pending) && 1 <= i < count && Column(i) in pending
    requires at == Edge(p0, n, count, i) && at + size == Edge(p0, n, count, i + 1)
    ensures var m' := BlockStep(m, p0, p0 + size0, at, at + size, p0, p0 + size0);
            && Stage2State(l, u, n, m', p0, p0 + size0, count, pending - {Column(i)})
            && SameExceptBands(m, m', n, p0, p0 + size0)
  {
    var p1, r0, r1 := p0 + size0, at, at + size;
    Edges(p0, n, count, i);
    assert ColumnState(l, u, n, m, p0, p1, count, pending, i);
    TaskRaises(l, u, n, m, p0, p1, r0, r1, p0, p1);
    var m', rest := Raise(l, u, n, m, p1, r0, r1, p0, p1), pending - {Column(i)};
    RegionKept(l, u, n, m, n, p0, p1, p0, p1, p1, r0, r1, p0, p1);
    forall k | 1 <= k < count ensures ColumnState(l, u, n, m', p0, p1, count, rest, k) {
      assert ColumnState(l, u, n, m, p0, p1, count, pending, k);
      if k != i {
        if k < i { EdgesApart(p0, n, count, k, i); } else { EdgesApart(p0, n, count, i, k); }
        RegionKept(l, u, n, m, if Column(k) in pending then p0
                   else p1, Edge(p0, n, count, k), Edge(p0, n, count, k + 1), p0, p1, p1, r0, r1, p0, p1);
      }
    }
    forall k | 1 <= k < count ensures RowState(l, u, n, m', p0, p1, count, rest, k) {
      assert RowState(l, u, n, m, p0, p1, count, pending, k);
      Edges(p0, n, count, k);
      RegionKept(l, u, n, m, if Row(k) in pending then p0
                 else p1, p0, p1, Edge(p0, n, count, k), Edge(p0, n, count, k + 1), p1, r0, r1, p0, p1);
    }
  }

  lemma RowTask(l: Factor, u: Factor, n: int, m: Matrix, p0: int, size0: int, count: int, pending: set<Task>, i: int,
                at: int, size: int)
    requires Factors(l, u, n) && count >= 1 && 0 <= p0 <= p0 + size0 <= n && p0 + size0 == Edge(p0, n, count, 1)
    requires Stage2State(l, u, n, m, p0, p0 + size0, count, pending) && 1 <= i < count && Row(i) in pending
    requires at == Edge(p0, n, count, i) && at + size == Edge(p0, n, count, i + 1)
    ensures var m' := BlockStep(m, p0, p0 + size0, p0, p0 + size0, at, at + size);
            && Stage2State(l, u, n, m', p0, p0 + size0, count, pending - {Row(i)})
            && SameExceptBands(m, m', n, p0, p0 + size0)
  {
    var p1, c0, c1 := p0 + size0, at, at + size;
    Edges(p0, n, count, i);
    assert RowState(l, u, n, m, p0, p1, count, pending, i);
    TaskRaises(l, u, n, m, p0, p1, p0, p1, c0, c1);
    var m', rest := Raise(l, u, n, m, p1, p0, p1, c0, c1), pending - {Row(i)};
    RegionKept(l, u, n, m, n, p0, p1, p0, p1, p1, p0, p1, c0, c1);
    forall k | 1 <= k < count ensures RowState(l, u, n, m', p0, p1, count, rest, k) {
      assert RowState(l, u, n, m, p0, p1, count, pending, k);
      if k != i {
        if k < i { EdgesApart(p0, n, count, k, i); } else { EdgesApart(p0, n, count, i, k); }
        RegionKept(l, u, n, m, if Row(k) in pending then p0
                   else p1, p0, p1, Edge(p0, n, count, k), Edge(p0, n, count, k + 1), p1, p0, p1, c0, c1);
      }
    }
    forall k | 1 <= k < count ensures ColumnState(l, u, n, m', p0, p1, count, rest, k) {
      assert ColumnState(l, u, n, m, p0, p1, count, pending, k);
      Edges(p0, n, count, k);
      RegionKept(l, u, n, m, if Column(k) in pending then p0
                 else p1, Edge(p0, n, count, k), Edge(p0, n, count, k + 1), p0, p1, p1, p0, p1, c0, c1);
    }
  }

  ghost predicate Square(a: array2<real>, n: int) {
    a.Length0 == n && a.Length1 == n
  }

  ghost predicate SizesAre(sizedim: array<int>, start: array<int>, remaining: int, count: int)
    reads sizedim, start
  {
    && count >= 1 && sizedim.Length == count && start.Length == count
    && forall i | 0 <= i < count ::
         sizedim[i] == BlockSize(remaining, count, i) && start[i] == BlockStart(remaining, count, i)
  }

  /** One task of stage 2, whichever it is. */
  method RunStage2Task(a: array2<real>, t: Task, offset: int, sizedim: array<int>, start: array<int>, n: int,
                       count: int,
                       ghost l: Factor, ghost u: Factor, ghost p1: int, ghost pending: set<Task>)
    requires Square(a, n) && 0 <= offset <= n && SizesAre(sizedim, start, n - offset, count) && Factors(l, u, n)
    requires p1 == Edge(offset, n, count, 1) && Stage2State(l, u, n, Contents(a), offset, p1, count, pending)
    requires t in pending && !t.Inner? && 1 <= t.i < count
    modifies a
    ensures Stage2State(l, u, n, Contents(a), offset, p1, count, pending - {t})
    ensures SameExceptBands(old(Contents(a)), Contents(a), n, offset, p1)
  {
    ghost var m := Contents(a);
    Edges(offset, n, count, 0);
    Edges(offset, n, count, t.i);
    var size0, size, at := sizedim[0], sizedim[t.i], offset + start[t.i];
    assert offset + size0 == p1;
    assert at == Edge(offset, n, count, t.i) && at + size == Edge(offset, n, count, t.i + 1);
    if t.Column? {
      ColumnTask(l, u, n, m, offset, size0, count, pending, t.i, at, size);
      BlockOnColumn(a, at, offset, size0, size);
    } else {
      RowTask(l, u, n, m, offset, size0, count, pending, t.i, at, size);
      BlockOnRow(a, at, offset, size0, size);
    }
  }

  function PanelTasks(count: int): (ts: set<Task>)
    ensures forall t :: t in ts <==> !t.Inner? && 1 <= t.i < count
  {
    (set i | 1 <= i < count :: Column(i)) + (set i | 1 <= i < count :: Row(i))
  }

  lemma SameBands(m: Matrix, n: int, p0: int, p1: int)
    ensures SameExceptBands(m, m, n, p0, p1)
  {
  }

  lemma SameBandsTwice(m: Matrix, m': Matrix, m'': Matrix, n: int, p0: int, p1: int)
    requires SameExceptBands(m, m', n, p0, p1) && SameExceptBands(m', m'', n, p0, p1)
    ensures SameExceptBands(m, m'', n, p0, p1)
  {
  }

  /** Stage 2: the column and row tasks, taken from the pool in any order. */
  method Stage2(a: array2<real>, offset: int, sizedim: array<int>, start: array<int>, n: int, count: int,
                ghost l: Factor, ghost u: Factor, ghost p1: int)
    requires Square(a, n) && 0 <= offset <= n && SizesAre(sizedim, start, n - offset, count) && Factors(l, u, n)
    requires p1 == Edge(offset, n, count, 1)
    requires RegionHasLevel(l, u, n, Contents(a), n, offset, p1, offset, p1)
    requires RegionHasLevel(l, u, n, Contents(a), offset, p1, n, offset, p1)
    requires RegionHasLevel(l, u, n, Contents(a), offset, offset, p1, p1, n)
    modifies a
    ensures Stage2State(l, u, n, Contents(a), offset, p1, count, {})
    ensures SameExceptBands(old(Contents(a)), Contents(a), n, offset, p1)
  {
    hide Stage2State, SameExceptBands, RegionHasLevel, Factors, Contents, Edge, PanelTasks;
    SameBands(Contents(a), n, offset, p1);
    ghost var m := Contents(a);
    var pending := PanelTasks(count);
    Edges(offset, n, count, 0);
    Stage2Begins(l, u, n, m, offset, p1, count, pending);
    while pending != {}
      invariant forall t | t in pending :: !t.Inner? && 1 <= t.i < count
      invariant Stage2State(l, u, n, Contents(a), offset, p1, count, pending)
      invariant SameExceptBands(m, Contents(a), n, offset, p1)
      decreases |pending|
    {
      var t :| t in pending;
      ghost var before := Contents(a);
      RunStage2Task(a, t, offset, sizedim, start, n, count, l, u, p1, pending);
      SameBandsTwice(m, before, Contents(a), n, offset, p1);
      pending := pending - {t};
    }
  }

  lemma Stage2Begins(l: Factor, u: Factor, n: int, m: Matrix, p0: int, p1: int, count: int, pending: set<Task>)
    requires count >= 1 && 0 <= p0 <= p1 <= n && p1 == Edge(p0, n, count, 1)
    requires RegionHasLevel(l, u, n, m, n, p0, p1, p0, p1)
    requires RegionHasLevel(l, u, n, m, p0, p1, n, p0, p1) && RegionHasLevel(l, u, n, m, p0, p0, p1, p1, n)
    requires forall i | 1 <= i < count :: Column(i) in pending && Row(i) in pending
    ensures Stage2State(l, u, n, m, p0, p1, count, pending)
  {
    forall i | 1 <= i < count
      ensures ColumnState(l, u, n, m, p0, p1, count, pending, i) && RowState(l, u, n, m, p0, p1, count, pending, i)
    {
      Edges(p0, n, count, i);
    }
  }

  lemma Stage2Ends(l: Factor, u: Factor, n: int, m: Matrix, p0: int, p1: int, count: int)
    requires count >= 1 && 0 <= p0 <= p1 <= n && p1 == Edge(p0, n, count, 1)
    requires Stage2State(l, u, n, m, p0, p1, count, {})
    ensures RegionHasLevel(l, u, n, m, n, p1, n, p0, p1) && RegionHasLevel(l, u, n, m, n, p0, p1, p1, n)
  {
    forall r, c | p1 <= r < n && p0 <= c < p1 ensures HasLevel(l, u, n, m, p1, r, c) {
      var i := BlockOf(p0, n, count, r);
      assert ColumnState(l, u, n, m, p0, p1, count, {}, i);
    }
    forall r, c | p0 <= r < p1 && p1 <= c < n ensures HasLevel(l, u, n, m, p1, r, c) {
      var i := BlockOf(p0, n, count, c);
      assert RowState(l, u, n, m, p0, p1, count, {}, i);
    }
    FinalRegion(l, u, n, m, p1, p1, n, p0, p1);
    FinalRegion(l, u, n, m, p1, p0, p1, p1, n);
  }

  // ------------------------------------------------ stage 3

  ghost predicate InnerState(l: Factor, u: Factor, n: int, m: Matrix, p0: int, p1: int, count: int, pending: set<Task>,
                             i: int, j: int)
    requires count >= 1
  {
    RegionHasLevel(l, u, n, m, if Inner(i, j) in pending then p0 else p1,
                   Edge(p0, n, count, i), Edge(p0, n, count, i + 1), Edge(p0, n, count, j), Edge(p0, n, count, j + 1))
  }

  /** During stage 3: the pivot column and row are final, finished inner blocks are at level p1,
      the others still at level p0. */
  ghost predicate Stage3State(l: Factor, u: Factor, n: int, m: Matrix, p0: int, p1: int, count: int, pending: set<Task>)
    requires count >= 1
  {
    && RegionHasLevel(l, u, n, m, n, p1, n, p0, p1) && RegionHasLevel(l, u, n, m, n, p0, p1, p1, n)
    && forall i, j | 1 <= i < count && 1 <= j < count :: InnerState(l, u, n, m, p0, p1, count, pending, i, j)
  }

  ghost predicate SameExceptInner(m: Matrix, m': Matrix, n: int, p1: int) {
    m.Keys == m'.Keys && forall x | x in m && !In(x, p1, n, p1, n) :: m'[x] == m[x]
  }

  lemma BlocksApart(p0: int, n: int, count: int, i: int, j: int, i': int, j': int)
    requires count >= 1 && 0 <= p0 <= n && 0 <= i < count && 0 <= j < count && 0 <= i' < count && 0 <= j' < count
    requires i != i' || j != j'
    ensures || Edge(p0, n, count, i + 1) <= Edge(p0, n, count, i') ||
               Edge(p0, n, count, i' + 1) <= Edge(p0, n, count, i)
            || Edge(p0, n, count, j + 1) <= Edge(p0, n, count, j') ||
               Edge(p0, n, count, j' + 1) <= Edge(p0, n, count, j)
  {
    if i < i' { EdgesApart(p0, n, count, i, i'); }
    if i' < i { EdgesApart(p0, n, count, i', i); }
    if j < j' { EdgesApart(p0, n, count, j, j'); }
    if j' < j { EdgesApart(p0, n, count, j', j); }
  }

  lemma InnerTask(l: Factor, u: Factor, n: int, m: Matrix, p0: int, size0: int, count: int, pending: set<Task>, i: int,
                  j: int,
                  r0: int, height: int, c0: int, width: int)
    requires Factors(l, u, n) && count >= 1 && 0 <= p0 <= p0 + size0 <= n && p0 + size0 == Edge(p0, n, count, 1)
    requires Stage3State(l, u, n, m, p0, p0 + size0, count, pending) && 1 <= i < count && 1 <= j < count
             && Inner(i, j) in pending
    requires r0 == Edge(p0, n, count, i) && r0 + height == Edge(p0, n, count, i + 1)
    requires c0 == Edge(p0, n, count, j) && c0 + width == Edge(p0, n, count, j + 1)
    ensures var m' := BlockStep(m, p0, p0 + size0, r0, r0 + height, c0, c0 + width);
            && Stage3State(l, u, n, m', p0, p0 + size0, count, pending - {Inner(i, j)})
            && SameExceptInner(m, m', n, p0 + size0)
  {
    hide RegionHasLevel, Raise, Factors, BlockStep, Edge, SameExceptInner;
    var p1, r1, c1 := p0 + size0, r0 + height, c0 + width;
    Edges(p0, n, count, i);
    Edges(p0, n, count, j);
    RaiseInner(l, u, n, m, p1, r0, r1, c0, c1);
    assert InnerState(l, u, n, m, p0, p1, count, pending, i, j);
    RegionPart(l, u, n, m, n, p1, n, p0, p1, r0, r1, p0, p1);
    RegionPart(l, u, n, m, n, p0, p1, p1, n, p0, p1, c0, c1);
    TaskRaises(l, u, n, m, p0, p1, r0, r1, c0, c1);
    var m', rest := Raise(l, u, n, m, p1, r0, r1, c0, c1), pending - {Inner(i, j)};
    RegionKept(l, u, n, m, n, p1, n, p0, p1, p1, r0, r1, c0, c1);
    RegionKept(l, u, n, m, n, p0, p1, p1, n, p1, r0, r1, c0, c1);
    forall i', j' | 1 <= i' < count && 1 <= j' < count ensures InnerState(l, u, n, m', p0, p1, count, rest, i', j') {
      assert InnerState(l, u, n, m, p0, p1, count, pending, i', j');
      if i' != i || j' != j { OtherInnerBlock(l, u, n, m, p0, p1, count, pending, i, j, i', j'); }
    }
  }

  lemma RaiseInner(l: Factor, u: Factor, n: int, m: Matrix, p1: int, r0: int, r1: int, c0: int, c1: int)
    requires p1 <= r0 && r1 <= n && p1 <= c0 && c1 <= n
    ensures SameExceptInner(m, Raise(l, u, n, m, p1, r0, r1, c0, c1), n, p1)
  {
  }

  lemma OtherInnerBlock(l: Factor, u: Factor, n: int, m: Matrix, p0: int, p1: int, count: int, pending: set<Task>,
                        i: int, j: int, i': int, j': int)
    requires count >= 1 && 0 <= p0 <= n && 0 <= i < count && 0 <= j < count && 0 <= i' < count && 0 <= j' < count
    requires (i != i' || j != j') && InnerState(l, u, n, m, p0, p1, count, pending, i', j')
    ensures InnerState(l, u, n,
                       Raise(l, u, n, m, p1, Edge(p0, n, count, i), Edge(p0, n, count, i + 1), Edge(p0, n, count, j),
                             Edge(p0, n, count, j + 1)),
                       p0, p1, count, pending - {Inner(i, j)}, i', j')
  {
    BlocksApart(p0, n, count, i', j', i, j);
    RegionKept(l, u, n, m, if Inner(i', j') in pending then p0 else p1,
               Edge(p0, n, count, i'), Edge(p0, n, count, i' + 1), Edge(p0, n, count, j'), Edge(p0, n, count, j' + 1),
               p1, Edge(p0, n, count, i), Edge(p0, n, count, i + 1), Edge(p0, n, count, j), Edge(p0, n, count, j + 1));
  }

  method RunStage3Task(a: array2<real>, t: Task, offset: int, sizedim: array<int>, start: array<int>, n: int,
                       count: int,
                       ghost l: Factor, ghost u: Factor, ghost p1: int, ghost pending: set<Task>)
    requires Square(a, n) && 0 <= offset <= n && SizesAre(sizedim, start, n - offset, count) && Factors(l, u, n)
    requires p1 == Edge(offset, n, count, 1) && Stage3State(l, u, n, Contents(a), offset, p1, count, pending)
    requires t in pending && t.Inner? && 1 <= t.i < count && 1 <= t.j < count
    modifies a
    ensures Stage3State(l, u, n, Contents(a), offset, p1, count, pending - {t})
    ensures SameExceptInner(old(Contents(a)), Contents(a), n, p1)
  {
    ghost var m := Contents(a);
    Edges(offset, n, count, 0);
    Edges(offset, n, count, t.i);
    Edges(offset, n, count, t.j);
    var size0, r0, height, c0, width := sizedim[0], offset + start[t.i], sizedim[t.i], offset + start[t.j],
                                        sizedim[t.j];
    assert offset + size0 == p1;
    assert r0 == Edge(offset, n, count, t.i) && r0 + height == Edge(offset, n, count, t.i + 1);
    assert c0 == Edge(offset, n, count, t.j) && c0 + width == Edge(offset, n, count, t.j + 1);
    InnerTask(l, u, n, m, offset, size0, count, pending, t.i, t.j, r0, height, c0, width);
    InnerBlock(a, r0, c0, offset, size0, height, width);
  }

  function InnerTasks(count: int): (ts: set<Task>)
    ensures forall t :: t in ts <==> t.Inner? && 1 <= t.i < count && 1 <= t.j < count
  {
    set i, j | 1 <= i < count && 1 <= j < count :: Inner(i, j)
  }

  lemma SameInner(m: Matrix, n: int, p1: int)
    ensures SameExceptInner(m, m, n, p1)
  {
  }

  lemma SameInnerTwice(m: Matrix, m': Matrix, m'': Matrix, n: int, p1: int)
    requires SameExceptInner(m, m', n, p1) && SameExceptInner(m', m'', n, p1)
    ensures SameExceptInner(m, m'', n, p1)
  {
  }

  /** Stage 3: the inner tasks, taken from the pool in any order. */
  method Stage3(a: array2<real>, offset: int, sizedim: array<int>, start: array<int>, n: int, count: int,
                ghost l: Factor, ghost u: Factor, ghost p1: int)
    requires Square(a, n) && 0 <= offset <= n && SizesAre(sizedim, start, n - offset, count) && Factors(l, u, n)
    requires p1 == Edge(offset, n, count, 1)
    requires RegionHasLevel(l, u, n, Contents(a), n, p1, n, offset, p1)
             && RegionHasLevel(l, u, n, Contents(a), n, offset, p1, p1, n)
    requires RegionHasLevel(l, u, n, Contents(a), offset, p1, n, p1, n)
    modifies a
    ensures Stage3State(l, u, n, Contents(a), offset, p1, count, {})
    ensures SameExceptInner(old(Contents(a)), Contents(a), n, p1)
  {
    hide Stage3State, SameExceptInner, RegionHasLevel, Factors, Contents, Edge, InnerTasks;
    SameInner(Contents(a), n, p1);
    ghost var m := Contents(a);
    var pending := InnerTasks(count);
    Edges(offset, n, count, 0);
    Stage3Begins(l, u, n, m, offset, p1, count, pending);
    while pending != {}
      invariant forall t | t in pending :: t.Inner? && 1 <= t.i < count && 1 <= t.j < count
      invariant Stage3State(l, u, n, Contents(a), offset, p1, count, pending)
      invariant SameExceptInner(m, Contents(a), n, p1)
      decreases |pending|
    {
      var t :| t in pending;
      ghost var before := Contents(a);
      RunStage3Task(a, t, offset, sizedim, start, n, count, l, u, p1, pending);
      SameInnerTwice(m, before, Contents(a), n, p1);
      pending := pending - {t};
    }
  }

  lemma Stage3Begins(l: Factor, u: Factor, n: int, m: Matrix, p0: int, p1: int, count: int, pending: set<Task>)
    requires count >= 1 && 0 <= p0 <= p1 <= n && p1 == Edge(p0, n, count, 1)
    requires RegionHasLevel(l, u, n, m, n, p1, n, p0, p1) && RegionHasLevel(l, u, n, m, n, p0, p1, p1, n)
    requires RegionHasLevel(l, u, n, m, p0, p1, n, p1, n)
    requires forall i, j | 1 <= i < count && 1 <= j < count :: Inner(i, j) in pending
    ensures Stage3State(l, u, n, m, p0, p1, count, pending)
  {
    forall i, j | 1 <= i < count && 1 <= j < count ensures InnerState(l, u, n, m, p0, p1, count, pending, i, j) {
      Edges(p0, n, count, i);
      Edges(p0, n, count, j);
    }
  }

  lemma Stage3Ends(l: Factor, u: Factor, n: int, m: Matrix, p0: int, p1: int, count: int)
    requires count >= 1 && 0 <= p0 <= p1 <= n && p1 == Edge(p0, n, count, 1)
    requires Stage3State(l, u, n, m, p0, p1, count, {})
    ensures RegionHasLevel(l, u, n, m, p1, p1, n, p1, n)
  {
    forall r, c | p1 <= r < n && p1 <= c < n ensures HasLevel(l, u, n, m, p1, r, c) {
      var i := BlockOf(p0, n, count, r);
      var j := BlockOf(p0, n, count, c);
      assert InnerState(l, u, n, m, p0, p1, count, {}, i, j);
    }
  }

  // ------------------------------------------------ the whole elimination

  /** The whole matrix is at one level: everything before it is final. */
  ghost predicate AtLevel(l: Factor, u: Factor, n: int, m: Matrix, level: int) {
    RegionHasLevel(l, u, n, m, level, 0, n, 0, n)
  }

  /** Stage 1 raises the diagonal block. */
  lemma Stage1Raises(l: Factor, u: Factor, n: int, m: Matrix, p0: int, size0: int)
    requires Factors(l, u, n) && 0 <= p0 <= p0 + size0 <= n && AtLevel(l, u, n, m, p0)
    ensures var p1 := p0 + size0;
            var m' := BlockStep(m, p0, p0 + size0, p0, p0 + size0, p0, p0 + size0);
            && m' == Raise(l, u, n, m, p1, p0, p1, p0, p1)
            && RegionHasLevel(l, u, n, m', n, p0, p1, p0, p1)
            && RegionHasLevel(l, u, n, m', p0, p1, n, p0, p1) && RegionHasLevel(l, u, n, m', p0, p0, p1, p1, n)
            && RegionHasLevel(l, u, n, m', p0, p1, n, p1, n)
            && (size0 == n - p0 ==> AtLevel(l, u, n, m', n))
  {
    var p1 := p0 + size0;
    RegionPart(l, u, n, m, p0, 0, n, 0, n, p0, p1, p0, p1);
    RegionPart(l, u, n, m, p0, 0, n, 0, n, p1, n, p0, p1);
    RegionPart(l, u, n, m, p0, 0, n, 0, n, p0, p1, p1, n);
    RegionPart(l, u, n, m, p0, 0, n, 0, n, p1, n, p1, n);
    TaskRaises(l, u, n, m, p0, p1, p0, p1, p0, p1);
    var m' := Raise(l, u, n, m, p1, p0, p1, p0, p1);
    FinalRegion(l, u, n, m', p1, p0, p1, p0, p1);
    RegionKept(l, u, n, m, p0, p1, n, p0, p1, p1, p0, p1, p0, p1);
    RegionKept(l, u, n, m, p0, p0, p1, p1, n, p1, p0, p1, p0, p1);
    RegionKept(l, u, n, m, p0, p1, n, p1, n, p1, p0, p1, p0, p1);
    if size0 == n - p0 {
      forall r, c | 0 <= r < n && 0 <= c < n ensures HasLevel(l, u, n, m', n, r, c) {
        assert HasLevel(l, u, n, m, p0, r, c);
      }
    }
  }

  /** Put together, the three stages raise the whole matrix to the next level. */
  lemma StagesRaise(l: Factor, u: Factor, n: int, m0: Matrix, m1: Matrix, m2: Matrix, m3: Matrix, p0: int, p1: int)
    requires 0 <= p0 <= p1 <= n && AtLevel(l, u, n, m0, p0)
    requires m1 == Raise(l, u, n, m0, p1, p0, p1, p0, p1)
    requires SameExceptBands(m1, m2, n, p0, p1) && SameExceptInner(m2, m3, n, p1)
    requires RegionHasLevel(l, u, n, m2, n, p1, n, p0, p1) && RegionHasLevel(l, u, n, m2, n, p0, p1, p1, n)
    requires RegionHasLevel(l, u, n, m3, p1, p1, n, p1, n)
    ensures AtLevel(l, u, n, m3, p1)
  {
    forall r, c | 0 <= r < n && 0 <= c < n ensures HasLevel(l, u, n, m3, p1, r, c) {
      assert HasLevel(l, u, n, m0, p0, r, c);
      if p0 <= r && p0 <= c && (p1 <= r || p1 <= c) {
        assert r < p1 || c < p1 ==> HasLevel(l, u, n, m2, n, r, c);
        assert p1 <= r && p1 <= c ==> HasLevel(l, u, n, m3, p1, r, c);
      }
    }
  }

  /** Stages 1 and 2: the pivot column and the pivot row become final. */
  method Panel(a: array2<real>, offset: int, sizedim: array<int>, start: array<int>, n: int, count: int,
               ghost l: Factor, ghost u: Factor, ghost p1: int) returns (ghost m1: Matrix)
    requires Square(a, n) && 0 <= offset <= n && SizesAre(sizedim, start, n - offset, count) && Factors(l, u, n)
    requires p1 == Edge(offset, n, count, 1) && AtLevel(l, u, n, Contents(a), offset)
    modifies a
    ensures m1 == Raise(l, u, n, old(Contents(a)), p1, offset, p1, offset, p1)
    ensures SameExceptBands(m1, Contents(a), n, offset, p1)
    ensures RegionHasLevel(l, u, n, Contents(a), n, p1, n, offset, p1)
            && RegionHasLevel(l, u, n, Contents(a), n, offset, p1, p1, n)
    ensures RegionHasLevel(l, u, n, Contents(a), offset, p1, n, p1, n)
  {
    hide RegionHasLevel, SameExceptBands, Raise, Factors, AtLevel, Contents, BlockStep, Stage2State;
    Edges(offset, n, count, 0);
    var size0 := sizedim[0];
    assert p1 == offset + size0;
    Stage1Raises(l, u, n, Contents(a), offset, size0);
    DiagonalBlock(a, offset, size0);
    m1 := Contents(a);
    Stage2(a, offset, sizedim, start, n, count, l, u, p1);
    ghost var m2 := Contents(a);
    Stage2Ends(l, u, n, m2, offset, p1, count);
    InnerUntouched(l, u, n, m1, m2, offset, p1);
  }

  /** One turn of the elimination loop. */
  method EliminationStep(a: array2<real>, offset: int, sizedim: array<int>, start: array<int>, n: int, count: int,
                         ghost l: Factor, ghost u: Factor)
    requires Square(a, n) && 0 <= offset <= n && SizesAre(sizedim, start, n - offset, count) && Factors(l, u, n)
    requires AtLevel(l, u, n, Contents(a), offset)
    modifies a
    ensures offset + sizedim[0] == Edge(offset, n, count, 1) <= n
    ensures AtLevel(l, u, n, Contents(a), offset + sizedim[0])
  {
    hide RegionHasLevel, SameExceptBands, SameExceptInner, Raise, Factors, AtLevel, Contents, Stage3State;
    Edges(offset, n, count, 0);
    ghost var p1 := offset + sizedim[0];
    ghost var m0 := Contents(a);
    ghost var m1 := Panel(a, offset, sizedim, start, n, count, l, u, p1);
    ghost var m2 := Contents(a);
    Stage3(a, offset, sizedim, start, n, count, l, u, p1);
    ghost var m3 := Contents(a);
    Stage3Ends(l, u, n, m3, offset, p1, count);
    StagesRaise(l, u, n, m0, m1, m2, m3, offset, p1);
  }

  lemma InnerUntouched(l: Factor, u: Factor, n: int, m1: Matrix, m2: Matrix, p0: int, p1: int)
    requires p0 <= p1 && RegionHasLevel(l, u, n, m1, p0, p1, n, p1, n) && SameExceptBands(m1, m2, n, p0, p1)
    ensures RegionHasLevel(l, u, n, m2, p0, p1, n, p1, n)
  {
    forall r, c | p1 <= r < n && p1 <= c < n ensures HasLevel(l, u, n, m2, p0, r, c) {
      assert HasLevel(l, u, n, m1, p0, r, c);
    }
  }

  method FillSizes(sizedim: array<int>, start: array<int>, remaining: int, count: int)
    requires count >= 1 && sizedim.Length == count && start.Length == count && sizedim != start
    modifies sizedim, start
    ensures SizesAre(sizedim, start, remaining, count)
  {
    for i := 0 to count
      invariant forall k | 0 <= k < i ::
          sizedim[k] == BlockSize(remaining, count, k) && start[k] == BlockStart(remaining, count, k)
    {
      if i < remaining % count {
        sizedim[i] := remaining / count + 1;
        start[i] := (remaining / count + 1) * i;
      } else {
        sizedim[i] := remaining / count;
        start[i] := (remaining / count + 1) * (remaining % count) + (remaining / count) * (i - remaining % count);
      }
    }
  }

  lemma ProductIsLevelZero(a: array2<real>, n: int, l: Factor, u: Factor)
    requires Square(a, n) && forall r, c | 0 <= r < n && 0 <= c < n :: a[r, c] == Tail(l, u, n, 0, r, c)
    ensures AtLevel(l, u, n, Contents(a), 0)
  {
  }

  lemma LastLevelIsFactors(a: array2<real>, n: int, l: Factor, u: Factor)
    requires Square(a, n) && AtLevel(l, u, n, Contents(a), n)
    ensures forall r, c | 0 <= r < n && 0 <= c < n :: a[r, c] == if c < r then l(r, c) else u(r, c)
  {
    forall r, c | 0 <= r < n && 0 <= c < n ensures a[r, c] == if c < r then l(r, c) else u(r, c) {
      assert HasLevel(l, u, n, Contents(a), n, r, c);
    }
  }

  /** Main result: a matrix that is a product of factors is overwritten with the factors, for
      every matrix size and every number of blocks. */
  method BlockedLu(a: array2<real>, n: int, count: int, ghost l: Factor, ghost u: Factor)
    requires Square(a, n) && n >= 0 && count >= 1 && Factors(l, u, n)
    requires forall r, c | 0 <= r < n && 0 <= c < n :: a[r, c] == Tail(l, u, n, 0, r, c)
    modifies a
    ensures forall r, c | 0 <= r < n && 0 <= c < n :: a[r, c] == if c < r then l(r, c) else u(r, c)
  {
    hide AtLevel, RegionHasLevel, Contents, Factors, Raise, BlockStep, Tail, Value;
    var sizedim, start := new int[count], new int[count];
    var offset, remaining := 0, n;
    ProductIsLevelZero(a, n, l, u);
    while n - offset > count
      invariant 0 <= offset <= n && remaining == n - offset
      invariant AtLevel(l, u, n, Contents(a), offset)
      decreases n - offset
    {
      FillSizes(sizedim, start, remaining, count);
      FirstBlockNonEmpty(remaining, count);
      EliminationStep(a, offset, sizedim, start, n, count, l, u);
      offset := offset + sizedim[0];
      remaining := remaining - sizedim[0];
    }
    Stage1Raises(l, u, n, Contents(a), offset, n - offset);
    DiagonalBlock(a, offset, n - offset);
    LastLevelIsFactors(a, n, l, u);
  }

  lemma FirstBlockNonEmpty(remaining: int, count: int)
    requires remaining > count >= 1
    ensures BlockSize(remaining, count, 0) >= 1
  {
  }

  // ------------------------------------------------ a matrix of this kind

  function InitL(i: int, j: int): real { if i >= j then (i - j + 1) as real else 0.0 }

  function InitU(i: int, j: int): real { if i <= j then (j - i + 1) as real else 0.0 }

  lemma InitFactors(n: int)
    ensures Factors(InitL, InitU, n)
  {
  }

  lemma {:induction false} TailSplit(l: Factor, u: Factor, i: int, k: int, r: int, c: int)
    requires i <= k
    ensures Tail(l, u, k + 1, i, r, c) == Tail(l, u, k, i, r, c) + l(r, k) * u(k, c)
    decreases k - i
  {
    if i == k {
      assert Tail(l, u, k + 1, k + 1, r, c) == 0.0;
    } else {
      TailSplit(l, u, i + 1, k, r, c);
    }
  }

  method FillFactors(a: array2<real>, lower: array2<real>, upper: array2<real>, n: int)
    requires Square(a, n) && Square(lower, n) && Square(upper, n) && n >= 0
    requires a != lower && a != upper && lower != upper
    modifies a, lower, upper
    ensures forall r, c | 0 <= r < n && 0 <= c < n ::
              a[r, c] == 0.0 && lower[r, c] == InitL(r, c) && upper[r, c] == InitU(r, c)
  {
    for i := 0 to n
      invariant forall r, c | 0 <= r < i && 0 <= c < n ::
          a[r, c] == 0.0 && lower[r, c] == InitL(r, c) && upper[r, c] == InitU(r, c)
    {
      for j := 0 to n
        invariant forall r, c | 0 <= r < i && 0 <= c < n ::
            a[r, c] == 0.0 && lower[r, c] == InitL(r, c) && upper[r, c] == InitU(r, c)
        invariant forall c | 0 <= c < j :: a[i, c] == 0.0 && lower[i, c] == InitL(i, c) && upper[i, c] == InitU(i, c)
      {
        a[i, j] := 0.0;
        lower[i, j] := if i >= j then (i - j + 1) as real else 0.0;
        upper[i, j] := if i <= j then (j - i + 1) as real else 0.0;
      }
    }
  }

  /** The product without its last term, shifted along the diagonal: the factors depend on i - j
      only. */
  lemma {:induction false} ShiftedTail(n: int, i: int, r: int, c: int)
    requires 0 <= i <= n
    ensures Tail(InitL, InitU, n + 1, i + 1, r + 1, c + 1) == Tail(InitL, InitU, n, i, r, c)
    decreases n - i
  {
    if i < n { ShiftedTail(n, i + 1, r, c); }
  }

  lemma TailUnfold(l: Factor, u: Factor, n: int, r: int, c: int)
    requires n >= 1
    ensures Tail(l, u, n, 0, r, c) == l(r, 0) * u(0, c) + Tail(l, u, n, 1, r, c)
  {
  }

  lemma WholeProduct(a: int, b: int)
    ensures a as real * b as real == (a * b) as real
  {
  }

  /** The entries of the product: the first row and column count up, and going down a diagonal adds
      the product of the numbers of row and column, counted from 1. */
  lemma InitEntries(n: int, r: int, c: int)
    requires 0 <= r < n && 0 <= c < n
    ensures Tail(InitL, InitU, n, 0, r, c) ==
            (if r == 0 || c == 0 then 0.0 else Tail(InitL, InitU, n, 0, r - 1, c - 1)) + ((r + 1) * (c + 1)) as real
  {
    hide Tail;
    InitFactors(n);
    TailUnfold(InitL, InitU, n, r, c);
    WholeProduct(r + 1, c + 1);
    if r == 0 || c == 0 {
      TailVanishes(InitL, InitU, n, 1, r, c);
    } else {
      ShiftedTail(n - 1, 0, r - 1, c - 1);
      TailSplit(InitL, InitU, 0, n - 1, r - 1, c - 1);
    }
  }

  /** InitMatrix3: A is built as the product of two known factors, so BlockedLu applies. */
  method InitMatrix3(a: array2<real>, n: int)
    requires Square(a, n)
    modifies a
    ensures Factors(InitL, InitU, n)
    ensures forall r, c | 0 <= r < n && 0 <= c < n :: a[r, c] == Tail(InitL, InitU, n, 0, r, c)
  {
    hide Tail, InitL, InitU, Factors;
    InitFactors(n);
    var lower, upper := new real[n, n], new real[n, n];
    FillFactors(a, lower, upper, n);
    for i := 0 to n
      invariant forall r, c | 0 <= r < n && 0 <= c < n :: lower[r, c] == InitL(r, c) && upper[r, c] == InitU(r, c)
      invariant forall r, c | 0 <= r < i && 0 <= c < n :: a[r, c] == Tail(InitL, InitU, n, 0, r, c)
      invariant forall r, c | i <= r < n && 0 <= c < n :: a[r, c] == 0.0
    {
      for j := 0 to n
        invariant forall r, c | 0 <= r < n && 0 <= c < n :: lower[r, c] == InitL(r, c) && upper[r, c] == InitU(r, c)
        invariant forall r, c | 0 <= r < i && 0 <= c < n :: a[r, c] == Tail(InitL, InitU, n, 0, r, c)
        invariant forall c | 0 <= c < j :: a[i, c] == Tail(InitL, InitU, n, 0, i, c)
        invariant forall r, c | i <= r < n && 0 <= c < n && (r > i || c >= j) :: a[r, c] == 0.0
      {
        AccumulateCell(a, lower, upper, n, i, j);
      }
    }
  }

  method AccumulateCell(a: array2<real>, lower: array2<real>, upper: array2<real>, n: int, i: int, j: int)
    requires Square(a, n) && Square(lower, n) && Square(upper, n) && 0 <= i < n && 0 <= j < n
    requires a != lower && a != upper && a[i, j] == 0.0
    requires forall k | 0 <= k < n :: lower[i, k] == InitL(i, k) && upper[k, j] == InitU(k, j)
    modifies a
    ensures a[i, j] == Tail(InitL, InitU, n, 0, i, j)
    ensures forall r, c | 0 <= r < n && 0 <= c < n && (r != i || c != j) :: a[r, c] == old(a[r, c])
  {
    for k := 0 to n
      invariant a[i, j] == Tail(InitL, InitU, k, 0, i, j)
      invariant forall r, c | 0 <= r < n && 0 <= c < n && (r != i || c != j) :: a[r, c] == old(a[r, c])
    {
      TailSplit(InitL, InitU, 0, k, i, j);
      a[i, j] := a[i, j] + lower[i, k] * upper[k, j];
    }
  }
}
