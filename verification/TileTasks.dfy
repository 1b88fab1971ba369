/** The recursive multiplication with its tasks interleaved at single cells. */
module TileTasks {
  import opened TaskGraph
  import opened ForkJoin
  import opened MatrixProduct
  import TileProduct

  /** A cell of the result matrix. */
  type Cell = (int, int)

  type Cells = Store<Cell, real>

  function At(s: Cells, r: int, c: int): real {
    if (r, c) in s then s[(r, c)] else 0.0
  }

  /** What the base case does to one cell. */
  ghost function CellAct(r: int, c: int, add: bool, x: seq<real>, y: seq<real>): Action<Cell, real>
    requires |x| == |y|
  {
    Action({(r, c)}, (r, c), v => TileProduct.Result(add, At(v, r, c), x, y))
  }

  ghost function RowProg(zr: int, zc: int, p: nat, n: nat, add: bool, x: seq<real>, b: Mat): Prog<Cell, real>
    requires |x| == n && Sized(b, p, n)
  {
    if p == 0 then Nil
    else Then(RowProg(zr, zc, p - 1, n, add, x, b[..p - 1]), Act(CellAct(zr, zc + p - 1, add, x, b[p - 1])))
  }

  ghost function BaseProg(zr: int, zc: int, m: nat, n: nat, p: nat, add: bool, a: Mat, b: Mat): Prog<Cell, real>
    requires Sized(a, m, n) && Sized(b, p, n)
  {
    if m == 0 then Nil
    else Then(BaseProg(zr, zc, m - 1, n, p, add, a[..m - 1], b), RowProg(zr + m - 1, zc, p, n, add, a[m - 1], b))
  }

  /** matmul_omp_task: two tasks and a taskwait, or two tasks with a taskwait after each. */
  ghost function TileProg(zr: int, zc: int, m: nat, n: nat, p: nat, add: bool, a: Mat, b: Mat): Prog<Cell, real>
    requires Sized(a, m, n) && Sized(b, p, n) && n >= 1
    decreases m + n + p
  {
    if m + n + p <= TileProduct.BASE then BaseProg(zr, zc, m, n, p, add, a, b)
    else if m >= n && n >= p then
      var m1 := m / 2;
      Both(TileProg(zr, zc, m1, n, p, add, a[..m1], b), TileProg(zr + m1, zc, m - m1, n, p, add, a[m1..], b))
    else if n >= m && n >= p then
      var n1 := n / 2;
      Then(TileProg(zr, zc, m, n1, p, add, Block(a, 0, 0, m, n1), Block(b, 0, 0, p, n1)),
           TileProg(zr, zc, m, n - n1, p, true, Block(a, 0, n1, m, n - n1), Block(b, 0, n1, p, n - n1)))
    else
      var p1 := p / 2;
      Both(TileProg(zr, zc, m, n, p1, add, a, b[..p1]), TileProg(zr, zc + p1, m, n, p - p1, add, a, b[p1..]))
  }

  /** One level of the recursion. */
  lemma TileProgIs(zr: int, zc: int, m: nat, n: nat, p: nat, add: bool, a: Mat, b: Mat)
    requires Sized(a, m, n) && Sized(b, p, n) && n >= 1
    ensures var m1, n1, p1 := m / 2, n / 2, p / 2;
            TileProg(zr, zc, m, n, p, add, a, b) ==
            if m + n + p <= TileProduct.BASE then BaseProg(zr, zc, m, n, p, add, a, b)
            else if m >= n && n >= p then
              Both(TileProg(zr, zc, m1, n, p, add, a[..m1], b), TileProg(zr + m1, zc, m - m1, n, p, add, a[m1..], b))
            else if n >= m && n >= p then
              Then(TileProg(zr, zc, m, n1, p, add, Block(a, 0, 0, m, n1), Block(b, 0, 0, p, n1)),
                   TileProg(zr, zc, m, n - n1, p, true, Block(a, 0, n1, m, n - n1), Block(b, 0, n1, p, n - n1)))
            else
              Both(TileProg(zr, zc, m, n, p1, add, a, b[..p1]), TileProg(zr, zc + p1, m, n, p - p1, add, a, b[p1..]))
  {
    hide BaseProg, Block;
  }

  // ------------------------------------------------ what the program computes

  /** s' is s with the m by p block at (zr, zc) set, or increased, by the product of a and b. */
  ghost predicate Computes(s: Cells, s': Cells, zr: int, zc: int, m: nat, n: nat, p: nat, add: bool, a: Mat, b: Mat)
    requires Sized(a, m, n) && Sized(b, p, n)
  {
    && (forall r, c | zr <= r < zr + m && zc <= c < zc + p ::
          (r, c) in s' && s'[(r, c)] == TileProduct.Result(add, At(s, r, c), a[r - zr], b[c - zc]))
    && forall r, c | Outside(r, c, zr, zc, m, p) :: ((r, c) in s' <==> (r, c) in s) && At(s', r, c) == At(s, r, c)
  }

  /** One more cell of a row. */
  lemma CellComputes(s: Cells, before: Cells, zr: int, zc: int, p: nat, n: nat, add: bool, x: seq<real>, b: Mat)
    requires |x| == n && p > 0 && Sized(b, p, n) && Computes(s, before, zr, zc, 1, n, p - 1, add, [x], b[..p - 1])
    ensures Computes(s, Exec(CellAct(zr, zc + p - 1, add, x, b[p - 1]), before), zr, zc, 1, n, p, add, [x], b)
  {
    hide TileProduct.Result;
    var act := CellAct(zr, zc + p - 1, add, x, b[p - 1]);
    assert Outside(zr, zc + p - 1, zr, zc, 1, p - 1);
    assert At(View(before, act.uses), zr, zc + p - 1) == At(before, zr, zc + p - 1);
  }

  lemma {:induction false} RowComputes(s: Cells, zr: int, zc: int, p: nat, n: nat, add: bool, x: seq<real>, b: Mat)
    requires |x| == n && Sized(b, p, n)
    ensures Computes(s, Meaning(RowProg(zr, zc, p, n, add, x, b), s), zr, zc, 1, n, p, add, [x], b)
  {
    hide CellAct;
    if p > 0 {
      RowComputes(s, zr, zc, p - 1, n, add, x, b[..p - 1]);
      CellComputes(s, Meaning(RowProg(zr, zc, p - 1, n, add, x, b[..p - 1]), s), zr, zc, p, n, add, x, b);
    }
  }

  lemma NothingComputed(s: Cells, zr: int, zc: int, n: nat, p: nat, add: bool, a: Mat, b: Mat)
    requires Sized(a, 0, n) && Sized(b, p, n)
    ensures Computes(s, s, zr, zc, 0, n, p, add, a, b)
  {
  }

  lemma {:induction false} BaseComputes(s: Cells, zr: int, zc: int, m: nat, n: nat, p: nat, add: bool, a: Mat, b: Mat)
    requires Sized(a, m, n) && Sized(b, p, n)
    ensures Computes(s, Meaning(BaseProg(zr, zc, m, n, p, add, a, b), s), zr, zc, m, n, p, add, a, b)
  {
    hide Computes, RowProg;
    if m == 0 {
      NothingComputed(s, zr, zc, n, p, add, a, b);
    } else {
      BaseComputes(s, zr, zc, m - 1, n, p, add, a[..m - 1], b);
      var before := Meaning(BaseProg(zr, zc, m - 1, n, p, add, a[..m - 1], b), s);
      RowComputes(before, zr + m - 1, zc, p, n, add, a[m - 1], b);
      RowsCompute(s, before, Meaning(RowProg(zr + m - 1, zc, p, n, add, a[m - 1], b), before), zr, zc, m - 1, m, n, p,
                  add, a, b, [a[m - 1]]);
    }
  }

  lemma RowsCompute(s: Cells, s1: Cells, s2: Cells, zr: int, zc: int, m1: nat, m: nat, n: nat, p: nat, add: bool,
                    a: Mat, b: Mat, lower: Mat)
    requires Sized(a, m, n) && Sized(b, p, n) && m1 <= m && lower == a[m1..]
    requires Computes(s, s1, zr, zc, m1, n, p, add, a[..m1], b)
             && Computes(s1, s2, zr + m1, zc, m - m1, n, p, add, lower, b)
    ensures Computes(s, s2, zr, zc, m, n, p, add, a, b)
  {
    hide TileProduct.Result;
    forall r, c | zr <= r < zr + m && zc <= c < zc + p
      ensures (r, c) in s2 && s2[(r, c)] == TileProduct.Result(add, At(s, r, c), a[r - zr], b[c - zc])
    {
      if r < zr + m1 { assert Outside(r, c, zr + m1, zc, m - m1, p); } else { assert Outside(r, c, zr, zc, m1, p); }
    }
  }

  lemma ColumnsCompute(s: Cells, s1: Cells, s2: Cells, zr: int, zc: int, p1: nat, m: nat, n: nat, p: nat, add: bool,
                       a: Mat, b: Mat)
    requires Sized(a, m, n) && Sized(b, p, n) && p1 <= p
    requires Computes(s, s1, zr, zc, m, n, p1, add, a, b[..p1])
             && Computes(s1, s2, zr, zc + p1, m, n, p - p1, add, a, b[p1..])
    ensures Computes(s, s2, zr, zc, m, n, p, add, a, b)
  {
    hide TileProduct.Result;
    forall r, c | zr <= r < zr + m && zc <= c < zc + p
      ensures (r, c) in s2 && s2[(r, c)] == TileProduct.Result(add, At(s, r, c), a[r - zr], b[c - zc])
    {
      if c < zc + p1 { assert Outside(r, c, zr, zc + p1, m, p - p1); } else { assert Outside(r, c, zr, zc, m, p1); }
    }
  }

  lemma SumsCompute(s: Cells, s1: Cells, s2: Cells, zr: int, zc: int, n1: nat, m: nat, n: nat, p: nat, add: bool,
                    a: Mat, b: Mat)
    requires Sized(a, m, n) && Sized(b, p, n) && n1 <= n
    requires Computes(s, s1, zr, zc, m, n1, p, add, Block(a, 0, 0, m, n1), Block(b, 0, 0, p, n1))
    requires Computes(s1, s2, zr, zc, m, n - n1, p, true, Block(a, 0, n1, m, n - n1), Block(b, 0, n1, p, n - n1))
    ensures Computes(s, s2, zr, zc, m, n, p, add, a, b)
  {
    hide TileProduct.Result;
    forall r, c | zr <= r < zr + m && zc <= c < zc + p
      ensures (r, c) in s2 && s2[(r, c)] == TileProduct.Result(add, At(s, r, c), a[r - zr], b[c - zc])
    {
      TileProduct.BlocksSplit(add, At(s, r, c), a, b, m, n, p, n1, r - zr, c - zc);
      assert (r, c) in s1;
    }
  }

  /** The recursion computes the product, tasks run at once. */
  lemma {:induction false} TileComputes(s: Cells, zr: int, zc: int, m: nat, n: nat, p: nat, add: bool, a: Mat, b: Mat)
    requires Sized(a, m, n) && Sized(b, p, n) && n >= 1
    ensures Computes(s, Meaning(TileProg(zr, zc, m, n, p, add, a, b), s), zr, zc, m, n, p, add, a, b)
    decreases m + n + p
  {
    hide Computes, BaseProg, TileProg, Block;
    TileProgIs(zr, zc, m, n, p, add, a, b);
    if m + n + p <= TileProduct.BASE {
      BaseComputes(s, zr, zc, m, n, p, add, a, b);
    } else if m >= n && n >= p {
      var m1 := m / 2;
      TileComputes(s, zr, zc, m1, n, p, add, a[..m1], b);
      var s1 := Meaning(TileProg(zr, zc, m1, n, p, add, a[..m1], b), s);
      TileComputes(s1, zr + m1, zc, m - m1, n, p, add, a[m1..], b);
      RowsCompute(s, s1, Meaning(TileProg(zr + m1, zc, m - m1, n, p, add, a[m1..], b), s1), zr, zc, m1, m, n, p, add, a,
                  b, a[m1..]);
    } else if n >= m && n >= p {
      var n1 := n / 2;
      var a1, a2, b1, b2 := Block(a, 0, 0, m, n1), Block(a, 0, n1, m, n - n1), Block(b, 0, 0, p, n1),
                            Block(b, 0, n1, p, n - n1);
      TileComputes(s, zr, zc, m, n1, p, add, a1, b1);
      var s1 := Meaning(TileProg(zr, zc, m, n1, p, add, a1, b1), s);
      TileComputes(s1, zr, zc, m, n - n1, p, true, a2, b2);
      SumsCompute(s, s1, Meaning(TileProg(zr, zc, m, n - n1, p, true, a2, b2), s1), zr, zc, n1, m, n, p, add, a, b);
    } else {
      var p1 := p / 2;
      TileComputes(s, zr, zc, m, n, p1, add, a, b[..p1]);
      var s1 := Meaning(TileProg(zr, zc, m, n, p1, add, a, b[..p1]), s);
      TileComputes(s1, zr, zc + p1, m, n, p - p1, add, a, b[p1..]);
      ColumnsCompute(s, s1, Meaning(TileProg(zr, zc + p1, m, n, p - p1, add, a, b[p1..]), s1), zr, zc, p1, m, n, p, add,
                     a, b);
    }
  }

  // ------------------------------------------------ tasks write disjoint cells

  /** Every action works on one cell of the m by p block at (zr, zc). */
  predicate Within(q: Prog<Cell, real>, zr: int, zc: int, m: nat, p: nat) {
    match q
    case Nil => true
    case Act(a) => a.uses == {a.target} && !Outside(a.target.0, a.target.1, zr, zc, m, p)
    case Then(x, y) => Within(x, zr, zc, m, p) && Within(y, zr, zc, m, p)
    case Both(x, y) => Within(x, zr, zc, m, p) && Within(y, zr, zc, m, p)
  }

  lemma {:induction false} WithinLarger(q: Prog<Cell, real>, zr: int, zc: int, m: nat, p: nat, zr': int, zc': int,
                                        m': nat, p': nat)
    requires Within(q, zr, zc, m, p) && zr' <= zr && zr + m <= zr' + m' && zc' <= zc && zc + p <= zc' + p'
    ensures Within(q, zr', zc', m', p')
  {
    match q
    case Nil =>
    case Act(_) =>
    case Then(x, y) => WithinLarger(x, zr, zc, m, p, zr', zc', m', p'); WithinLarger(y, zr, zc, m, p, zr', zc', m', p');
    case Both(x, y) => WithinLarger(x, zr, zc, m, p, zr', zc', m', p'); WithinLarger(y, zr, zc, m, p, zr', zc', m', p');
  }

  lemma {:induction false} CellApart(a: Action<Cell, real>, q: Prog<Cell, real>, zr: int, zc: int, m: nat, p: nat)
    requires a.uses == {a.target} && Outside(a.target.0, a.target.1, zr, zc, m, p) && Within(q, zr, zc, m, p)
    ensures Apart(a, q)
  {
    match q
    case Nil =>
    case Act(_) =>
    case Then(x, y) => CellApart(a, x, zr, zc, m, p); CellApart(a, y, zr, zc, m, p);
    case Both(x, y) => CellApart(a, x, zr, zc, m, p); CellApart(a, y, zr, zc, m, p);
  }

  lemma {:induction false} BlocksApart(q: Prog<Cell, real>, q': Prog<Cell, real>, zr: int, zc: int, m: nat, p: nat,
                                       zr': int, zc': int, m': nat, p': nat)
    requires Within(q, zr, zc, m, p) && Within(q', zr', zc', m', p') && (zr + m <= zr' || zc + p <= zc')
    ensures ApartProgs(q, q')
  {
    match q
    case Nil =>
    case Act(a) => CellApart(a, q', zr', zc', m', p');
    case Then(x, y) => BlocksApart(x, q', zr, zc, m, p, zr', zc', m', p');
    BlocksApart(y, q', zr, zc, m, p, zr', zc', m', p');
    case Both(x, y) => BlocksApart(x, q', zr, zc, m, p, zr', zc', m', p');
    BlocksApart(y, q', zr, zc, m, p, zr', zc', m', p');
  }

  lemma {:induction false} RowWithin(zr: int, zc: int, p: nat, n: nat, add: bool, x: seq<real>, b: Mat)
    requires |x| == n && Sized(b, p, n)
    ensures Within(RowProg(zr, zc, p, n, add, x, b), zr, zc, 1, p) && RaceFree(RowProg(zr, zc, p, n, add, x, b))
  {
    if p > 0 {
      RowWithin(zr, zc, p - 1, n, add, x, b[..p - 1]);
      WithinLarger(RowProg(zr, zc, p - 1, n, add, x, b[..p - 1]), zr, zc, 1, p - 1, zr, zc, 1, p);
    }
  }

  lemma {:induction false} BaseWithin(zr: int, zc: int, m: nat, n: nat, p: nat, add: bool, a: Mat, b: Mat)
    requires Sized(a, m, n) && Sized(b, p, n)
    ensures Within(BaseProg(zr, zc, m, n, p, add, a, b), zr, zc, m, p) && RaceFree(BaseProg(zr, zc, m, n, p, add, a, b))
  {
    if m > 0 {
      BaseWithin(zr, zc, m - 1, n, p, add, a[..m - 1], b);
      RowWithin(zr + m - 1, zc, p, n, add, a[m - 1], b);
      WithinLarger(BaseProg(zr, zc, m - 1, n, p, add, a[..m - 1], b), zr, zc, m - 1, p, zr, zc, m, p);
      WithinLarger(RowProg(zr + m - 1, zc, p, n, add, a[m - 1], b), zr + m - 1, zc, 1, p, zr, zc, m, p);
    }
  }

  /** Tasks without a taskwait between them write disjoint cells. */
  lemma {:induction false} TileRaceFree(zr: int, zc: int, m: nat, n: nat, p: nat, add: bool, a: Mat, b: Mat)
    requires Sized(a, m, n) && Sized(b, p, n) && n >= 1
    ensures Within(TileProg(zr, zc, m, n, p, add, a, b), zr, zc, m, p) && RaceFree(TileProg(zr, zc, m, n, p, add, a, b))
    decreases m + n + p
  {
    hide BaseProg, TileProg, Block, Within, RaceFree;
    TileProgIs(zr, zc, m, n, p, add, a, b);
    if m + n + p <= TileProduct.BASE {
      BaseWithin(zr, zc, m, n, p, add, a, b);
    } else if m >= n && n >= p {
      var m1 := m / 2;
      TileRaceFree(zr, zc, m1, n, p, add, a[..m1], b);
      TileRaceFree(zr + m1, zc, m - m1, n, p, add, a[m1..], b);
      SplitRaceFree(TileProg(zr, zc, m1, n, p, add, a[..m1], b), TileProg(zr + m1, zc, m - m1, n, p, add, a[m1..], b),
                    zr, zc, m, p, m1, p, zr + m1, zc, m - m1, p);
    } else if n >= m && n >= p {
      var n1 := n / 2;
      TileRaceFree(zr, zc, m, n1, p, add, Block(a, 0, 0, m, n1), Block(b, 0, 0, p, n1));
      TileRaceFree(zr, zc, m, n - n1, p, true, Block(a, 0, n1, m, n - n1), Block(b, 0, n1, p, n - n1));
      InTurnRaceFree(TileProg(zr, zc, m, n1, p, add, Block(a, 0, 0, m, n1), Block(b, 0, 0, p, n1)),
                     TileProg(zr, zc, m, n - n1, p, true, Block(a, 0, n1, m, n - n1), Block(b, 0, n1, p, n - n1)), zr,
                     zc, m, p);
    } else {
      var p1 := p / 2;
      TileRaceFree(zr, zc, m, n, p1, add, a, b[..p1]);
      TileRaceFree(zr, zc + p1, m, n, p - p1, add, a, b[p1..]);
      SplitRaceFree(TileProg(zr, zc, m, n, p1, add, a, b[..p1]), TileProg(zr, zc + p1, m, n, p - p1, add, a, b[p1..]),
                    zr, zc, m, p, m, p1, zr, zc + p1, m, p - p1);
    }
  }

  /** Two tasks on the two parts of a block. */
  lemma SplitRaceFree(q: Prog<Cell, real>, q': Prog<Cell, real>, zr: int, zc: int, m: nat, p: nat, m1: nat, p1: nat,
                      zr': int, zc': int, m': nat, p': nat)
    requires Within(q, zr, zc, m1, p1) && Within(q', zr', zc', m', p') && (zr + m1 <= zr' || zc + p1 <= zc')
    requires m1 <= m && p1 <= p && zr <= zr' && zc <= zc' && zr' + m' <= zr + m && zc' + p' <= zc + p
    requires RaceFree(q) && RaceFree(q')
    ensures Within(Both(q, q'), zr, zc, m, p) && RaceFree(Both(q, q'))
  {
    BlocksApart(q, q', zr, zc, m1, p1, zr', zc', m', p');
    WithinLarger(q, zr, zc, m1, p1, zr, zc, m, p);
    WithinLarger(q', zr', zc', m', p', zr, zc, m, p);
  }

  lemma InTurnRaceFree(q: Prog<Cell, real>, q': Prog<Cell, real>, zr: int, zc: int, m: nat, p: nat)
    requires Within(q, zr, zc, m, p) && Within(q', zr, zc, m, p) && RaceFree(q) && RaceFree(q')
    ensures Within(Then(q, q'), zr, zc, m, p) && RaceFree(Then(q, q'))
  {
  }

  /** Main result: however the tasks of the recursion interleave, the block ends with the product,
      added or not, and no other cell changes. */
  lemma EveryInterleavingMultiplies(s: Cells, zr: int, zc: int, m: nat, n: nat, p: nat, add: bool, a: Mat, b: Mat,
                                    run: seq<(Action<Cell, real>, Prog<Cell, real>)>, rest: Prog<Cell, real>, s': Cells)
    requires Sized(a, m, n) && Sized(b, p, n) && n >= 1
    requires Runs(TileProg(zr, zc, m, n, p, add, a, b), s, run, rest, s') && Over(rest)
    ensures Computes(s, s', zr, zc, m, n, p, add, a, b)
  {
    hide Computes, TileProg, Runs;
    TileRaceFree(zr, zc, m, n, p, add, a, b);
    RaceFreeIsDeterminate(TileProg(zr, zc, m, n, p, add, a, b), s, run, rest, s');
    TileComputes(s, zr, zc, m, n, p, add, a, b);
  }
}
