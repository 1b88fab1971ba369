/** The arithmetic of block LU elimination on matrix cells, and what it does to a matrix that
    is a product of triangular factors. */
module LuSteps {
  import opened Blocks

  /** A cell of the matrix, or an entry of one of the two block tables of the dataflow form. */
  datatype Loc = Elem(row: int, col: int) | Entry(buf: int, i: int, j: int)

  type Matrix = map<Loc, real>
  type Factor = (int, int) -> real

  /** The model of `x / y`: the guard only makes the function total. */
  function Quotient(x: real, y: real): real {
    if y == 0.0 then 0.0 else x / y
  }

  function SubProduct(x: real, y: real, z: real): real { x - y * z }

  function At(m: Matrix, r: int, c: int): real {
    if Elem(r, c) in m then m[Elem(r, c)] else 0.0
  }

  /** A[r][i] /= A[i][i] */
  function Divide(m: Matrix, r: int, i: int): Matrix {
    m[Elem(r, i) := Quotient(At(m, r, i), At(m, i, i))]
  }

  /** A[r][c] -= A[r][i] * A[i][c] */
  function Eliminate(m: Matrix, r: int, c: int, i: int): Matrix {
    m[Elem(r, c) := SubProduct(At(m, r, c), At(m, r, i), At(m, i, c))]
  }

  function ElimRow(m: Matrix, i: int, r: int, lo: int, hi: int): Matrix
    decreases hi - lo
  {
    if hi <= lo then m else Eliminate(ElimRow(m, i, r, lo, hi - 1), r, hi - 1, i)
  }

  /** What pivot i does to the part of row r with columns c0..c1. */
  function RowStep(m: Matrix, i: int, r: int, c0: int, c1: int): Matrix {
    ElimRow(if c0 <= i < c1 then Divide(m, r, i) else m, i, r, Max(i + 1, c0), c1)
  }

  function PivotStep(m: Matrix, i: int, lo: int, hi: int, c0: int, c1: int): Matrix
    decreases hi - lo
  {
    if hi <= lo then m else RowStep(PivotStep(m, i, lo, hi - 1, c0, c1), i, hi - 1, c0, c1)
  }

  /** What pivots p0..p1 do to the block with rows r0..r1 and columns c0..c1. */
  function BlockStep(m: Matrix, p0: int, p1: int, r0: int, r1: int, c0: int, c1: int): Matrix
    decreases p1 - p0
  {
    if p1 <= p0 then m
    else PivotStep(BlockStep(m, p0, p1 - 1, r0, r1, c0, c1), p1 - 1, Max(p1, r0), r1, c0, c1)
  }

  // ------------------------------------------------ factors and partial products

  /** l is unit lower triangular and u upper triangular with a non-zero diagonal. */
  ghost predicate Factors(l: Factor, u: Factor, n: int) {
    && (forall i | 0 <= i < n :: l(i, i) == 1.0 && u(i, i) != 0.0)
    && (forall i, j | 0 <= i < j < n :: l(i, j) == 0.0)
    && (forall i, j | 0 <= j < i < n :: u(i, j) == 0.0)
  }

  /** sum of l[r][t] * u[t][c] over i <= t < n */
  function Tail(l: Factor, u: Factor, n: int, i: int, r: int, c: int): real
    decreases n - i
  {
    if i >= n then 0.0 else l(r, i) * u(i, c) + Tail(l, u, n, i + 1, r, c)
  }

  /** The value of cell (r, c) once pivots 0..level have been applied to it. */
  function Value(l: Factor, u: Factor, n: int, level: int, r: int, c: int): real {
    if c < r && c < level then l(r, c)
    else if r <= c && r < level then u(r, c)
    else Tail(l, u, n, level, r, c)
  }

  ghost predicate HasLevel(l: Factor, u: Factor, n: int, m: Matrix, level: int, r: int, c: int) {
    Elem(r, c) in m && m[Elem(r, c)] == Value(l, u, n, level, r, c)
  }

  ghost predicate RegionHasLevel(l: Factor, u: Factor, n: int, m: Matrix, level: int, r0: int, r1: int, c0: int,
                                 c1: int) {
    forall r, c | r0 <= r < r1 && c0 <= c < c1 :: HasLevel(l, u, n, m, level, r, c)
  }

  ghost predicate In(x: Loc, r0: int, r1: int, c0: int, c1: int) {
    x.Elem? && r0 <= x.row < r1 && c0 <= x.col < c1
  }

  /** The matrix with one region raised to the given level. */
  ghost function Raise(l: Factor, u: Factor, n: int, m: Matrix, level: int, r0: int, r1: int, c0: int,
                       c1: int): Matrix {
    map x | x in m :: if In(x, r0, r1, c0, c1) then Value(l, u, n, level, x.row, x.col) else m[x]
  }

  lemma {:induction false} TailVanishes(l: Factor, u: Factor, n: int, i: int, r: int, c: int)
    requires Factors(l, u, n) && 0 <= r < n && 0 <= c < n && 0 <= i
    requires r < i || c < i
    ensures Tail(l, u, n, i, r, c) == 0.0
    decreases n - i
  {
    if i < n { TailVanishes(l, u, n, i + 1, r, c); }
  }

  /** Pivot i changes neither its own row, nor anything above or to the left of it. */
  lemma LevelStable(l: Factor, u: Factor, n: int, i: int, r: int, c: int)
    requires Factors(l, u, n) && 0 <= r < n && 0 <= c < n && 0 <= i
    requires r <= i || c < i
    ensures Value(l, u, n, i + 1, r, c) == Value(l, u, n, i, r, c)
  {
    if r == i && r <= c { TailVanishes(l, u, n, i + 1, r, c); }
  }

  lemma SubtractBack(z: real, x: real, y: real, rest: real)
    requires z == x * y + rest
    ensures SubProduct(z, x, y) == rest
  {
  }

  lemma Cancel(x: real, y: real)
    requires y != 0.0
    ensures Quotient(x * y, y) == x
  {
  }

  // ------------------------------------------------ what the steps do

  lemma EliminateRaises(l: Factor, u: Factor, n: int, m: Matrix, i: int, r: int, c: int)
    requires Factors(l, u, n) && 0 <= i < r < n && i < c < n
    requires Elem(r, i) in m && m[Elem(r, i)] == l(r, i)
    requires HasLevel(l, u, n, m, i, r, c) && HasLevel(l, u, n, m, i + 1, i, c)
    ensures Eliminate(m, r, c, i) == m[Elem(r, c) := Value(l, u, n, i + 1, r, c)]
  {
    var x, y := l(r, i), u(i, c);
    assert At(m, r, i) == x && At(m, i, c) == y;
    assert At(m, r, c) == x * y + Value(l, u, n, i + 1, r, c);
    SubtractBack(At(m, r, c), x, y, Value(l, u, n, i + 1, r, c));
  }

  lemma DivideRaises(l: Factor, u: Factor, n: int, m: Matrix, i: int, r: int)
    requires Factors(l, u, n) && 0 <= i < r < n
    requires HasLevel(l, u, n, m, i, r, i) && HasLevel(l, u, n, m, i + 1, i, i)
    ensures Divide(m, r, i) == m[Elem(r, i) := Value(l, u, n, i + 1, r, i)]
  {
    TailVanishes(l, u, n, i + 1, r, i);
    var x, y := l(r, i), u(i, i);
    assert At(m, i, i) == y;
    assert At(m, r, i) == x * y;
    Cancel(x, y);
    assert Quotient(At(m, r, i), At(m, i, i)) == x;
  }

  lemma EliminateOneMore(l: Factor, u: Factor, n: int, m: Matrix, i: int, r: int, lo: int, c: int)
    requires Factors(l, u, n) && 0 <= i < r < n && i < lo <= c < n
    requires Elem(r, i) in m && m[Elem(r, i)] == l(r, i)
    requires HasLevel(l, u, n, m, i, r, c) && HasLevel(l, u, n, m, i + 1, i, c)
    ensures Eliminate(Raise(l, u, n, m, i + 1, r, r + 1, lo, c), r, c, i) ==
            Raise(l, u, n, m, i + 1, r, r + 1, lo, c + 1)
  {
    EliminateRaises(l, u, n, Raise(l, u, n, m, i + 1, r, r + 1, lo, c), i, r, c);
  }

  lemma {:induction false} ElimRowRaises(l: Factor, u: Factor, n: int, m: Matrix, i: int, r: int, lo: int, hi: int)
    requires Factors(l, u, n) && 0 <= i < r < n && i < lo && hi <= n
    requires Elem(r, i) in m && m[Elem(r, i)] == l(r, i)
    requires RegionHasLevel(l, u, n, m, i, r, r + 1, lo, hi)
    requires RegionHasLevel(l, u, n, m, i + 1, i, i + 1, lo, hi)
    ensures ElimRow(m, i, r, lo, hi) == Raise(l, u, n, m, i + 1, r, r + 1, lo, hi)
    decreases hi - lo
  {
    if hi <= lo {
      assert Raise(l, u, n, m, i + 1, r, r + 1, lo, hi) == m;
    } else {
      var c := hi - 1;
      assert HasLevel(l, u, n, m, i, r, c) && HasLevel(l, u, n, m, i + 1, i, c);
      ElimRowRaises(l, u, n, m, i, r, lo, c);
      EliminateOneMore(l, u, n, m, i, r, lo, c);
    }
  }

  /** Raising one region does not disturb a disjoint one. */
  lemma RegionKept(l: Factor, u: Factor, n: int, m: Matrix, level: int, r0: int, r1: int, c0: int, c1: int,
                   level': int, x0: int, x1: int, y0: int, y1: int)
    requires RegionHasLevel(l, u, n, m, level, r0, r1, c0, c1)
    requires r1 <= x0 || x1 <= r0 || c1 <= y0 || y1 <= c0
    ensures RegionHasLevel(l, u, n, Raise(l, u, n, m, level', x0, x1, y0, y1), level, r0, r1, c0, c1)
  {
    var m' := Raise(l, u, n, m, level', x0, x1, y0, y1);
    forall r, c | r0 <= r < r1 && c0 <= c < c1 ensures HasLevel(l, u, n, m', level, r, c) {
      assert HasLevel(l, u, n, m, level, r, c);
    }
  }

  lemma RegionPart(l: Factor, u: Factor, n: int, m: Matrix, level: int,
                   r0: int, r1: int, c0: int, c1: int, x0: int, x1: int, y0: int, y1: int)
    requires RegionHasLevel(l, u, n, m, level, r0, r1, c0, c1)
    requires r0 <= x0 && x1 <= r1 && c0 <= y0 && y1 <= c1
    ensures RegionHasLevel(l, u, n, m, level, x0, x1, y0, y1)
  {
  }

  lemma RaiseAfterDivide(l: Factor, u: Factor, n: int, m: Matrix, i: int, r: int, c0: int, c1: int)
    requires Factors(l, u, n) && 0 <= i < r < n && 0 <= c0 <= i < c1 <= n
    requires RegionHasLevel(l, u, n, m, i, r, r + 1, c0, c1)
    ensures Raise(l, u, n, m[Elem(r, i) := Value(l, u, n, i + 1, r, i)], i + 1, r, r + 1, i + 1, c1) ==
            Raise(l, u, n, m, i + 1, r, r + 1, c0, c1)
  {
    assert HasLevel(l, u, n, m, i, r, i);
    var a := Raise(l, u, n, m[Elem(r, i) := Value(l, u, n, i + 1, r, i)], i + 1, r, r + 1, i + 1, c1);
    var b := Raise(l, u, n, m, i + 1, r, r + 1, c0, c1);
    forall x | x in m ensures a[x] == b[x] {
      if In(x, r, r + 1, c0, i) {
        assert HasLevel(l, u, n, m, i, r, x.col);
        LevelStable(l, u, n, i, r, x.col);
      }
    }
  }

  lemma DivideKeeps(l: Factor, u: Factor, n: int, m: Matrix, level: int, r0: int, c0: int, c1: int, r: int, i: int,
                    v: real)
    requires RegionHasLevel(l, u, n, m, level, r0, r0 + 1, c0, c1) && !(r == r0 && c0 <= i < c1)
    ensures RegionHasLevel(l, u, n, m[Elem(r, i) := v], level, r0, r0 + 1, c0, c1)
  {
    var m' := m[Elem(r, i) := v];
    forall r', c | r0 <= r' < r0 + 1 && c0 <= c < c1 ensures HasLevel(l, u, n, m', level, r', c) {
      assert HasLevel(l, u, n, m, level, r', c);
    }
  }

  /** Row r, columns c0..c1.  If the pivot column is one of them, its cell is divided first. */
  lemma RowStepRaises(l: Factor, u: Factor, n: int, m: Matrix, i: int, r: int, c0: int, c1: int)
    requires Factors(l, u, n) && 0 <= i < r < n && 0 <= c0 && c1 <= n && (i < c0 || i < c1)
    requires RegionHasLevel(l, u, n, m, i, r, r + 1, c0, c1)
    requires RegionHasLevel(l, u, n, m, i + 1, i, i + 1, Max(i, c0), c1)
    requires i < c0 ==> HasLevel(l, u, n, m, i + 1, r, i)
    ensures RowStep(m, i, r, c0, c1) == Raise(l, u, n, m, i + 1, r, r + 1, c0, c1)
  {
    if i < c0 {
      ElimRowRaises(l, u, n, m, i, r, c0, c1);
    } else {
      assert HasLevel(l, u, n, m, i, r, i) && HasLevel(l, u, n, m, i + 1, i, i);
      DivideRaises(l, u, n, m, i, r);
      var v := Value(l, u, n, i + 1, r, i);
      var m1 := m[Elem(r, i) := v];
      RegionPart(l, u, n, m, i, r, r + 1, c0, c1, r, r + 1, i + 1, c1);
      RegionPart(l, u, n, m, i + 1, i, i + 1, i, c1, i, i + 1, i + 1, c1);
      DivideKeeps(l, u, n, m, i, r, i + 1, c1, r, i, v);
      DivideKeeps(l, u, n, m, i + 1, i, i + 1, c1, r, i, v);
      ElimRowRaises(l, u, n, m1, i, r, i + 1, c1);
      RaiseAfterDivide(l, u, n, m, i, r, c0, c1);
    }
  }

  lemma RaiseTwice(l: Factor, u: Factor, n: int, m: Matrix, level: int, r0: int, r1: int, r2: int, c0: int, c1: int)
    requires r0 <= r1 <= r2
    ensures Raise(l, u, n, Raise(l, u, n, m, level, r0, r1, c0, c1), level, r1, r2, c0, c1) ==
            Raise(l, u, n, m, level, r0, r2, c0, c1)
  {
  }

  lemma RaiseOneMoreRow(l: Factor, u: Factor, n: int, m: Matrix, i: int, lo: int, r: int, c0: int, c1: int)
    requires Factors(l, u, n) && 0 <= i < lo <= r < n && 0 <= c0 && c1 <= n && (i < c0 || i < c1)
    requires RegionHasLevel(l, u, n, m, i, lo, r + 1, c0, c1)
    requires RegionHasLevel(l, u, n, m, i + 1, i, i + 1, Max(i, c0), c1)
    requires c0 > i ==> RegionHasLevel(l, u, n, m, i + 1, lo, r + 1, i, i + 1)
    ensures RowStep(Raise(l, u, n, m, i + 1, lo, r, c0, c1), i, r, c0, c1) ==
            Raise(l, u, n, m, i + 1, lo, r + 1, c0, c1)
  {
    var m1 := Raise(l, u, n, m, i + 1, lo, r, c0, c1);
    RegionPart(l, u, n, m, i, lo, r + 1, c0, c1, r, r + 1, c0, c1);
    RegionKept(l, u, n, m, i, r, r + 1, c0, c1, i + 1, lo, r, c0, c1);
    RegionKept(l, u, n, m, i + 1, i, i + 1, Max(i, c0), c1, i + 1, lo, r, c0, c1);
    if i < c0 {
      RegionKept(l, u, n, m, i + 1, lo, r + 1, i, i + 1, i + 1, lo, r, c0, c1);
      assert HasLevel(l, u, n, m1, i + 1, r, i);
    }
    RowStepRaises(l, u, n, m1, i, r, c0, c1);
    RaiseTwice(l, u, n, m, i + 1, lo, r, r + 1, c0, c1);
  }

  /** All rows of the block below the pivot row. */
  lemma {:induction false} PivotStepRaises(l: Factor, u: Factor, n: int, m: Matrix, i: int, lo: int, hi: int, c0: int,
                                           c1: int)
    requires Factors(l, u, n) && 0 <= i < lo && hi <= n && 0 <= c0 && c1 <= n && (i < c0 || i < c1)
    requires RegionHasLevel(l, u, n, m, i, lo, hi, c0, c1)
    requires RegionHasLevel(l, u, n, m, i + 1, i, i + 1, Max(i, c0), c1)
    requires c0 > i ==> RegionHasLevel(l, u, n, m, i + 1, lo, hi, i, i + 1)
    ensures PivotStep(m, i, lo, hi, c0, c1) == Raise(l, u, n, m, i + 1, lo, hi, c0, c1)
    decreases hi - lo
  {
    if hi <= lo {
      assert Raise(l, u, n, m, i + 1, lo, hi, c0, c1) == m;
    } else {
      var r := hi - 1;
      PivotStepRaises(l, u, n, m, i, lo, r, c0, c1);
      RaiseOneMoreRow(l, u, n, m, i, lo, r, c0, c1);
    }
  }

  /** The part of a block above and including the pivot row is already at the next level. */
  lemma RaiseWholeBlock(l: Factor, u: Factor, n: int, m: Matrix, i: int, r0: int, r1: int, c0: int, c1: int)
    requires Factors(l, u, n) && 0 <= i && 0 <= r0 && r1 <= n && 0 <= c0 && c1 <= n
    requires RegionHasLevel(l, u, n, m, i, r0, r1, c0, c1)
    ensures Raise(l, u, n, m, i + 1, Max(i + 1, r0), r1, c0, c1) == Raise(l, u, n, m, i + 1, r0, r1, c0, c1)
  {
    var a := Raise(l, u, n, m, i + 1, Max(i + 1, r0), r1, c0, c1);
    var b := Raise(l, u, n, m, i + 1, r0, r1, c0, c1);
    forall x | x in m ensures a[x] == b[x] {
      if In(x, r0, r1, c0, c1) && x.row <= i {
        assert HasLevel(l, u, n, m, i, x.row, x.col);
        LevelStable(l, u, n, i, x.row, x.col);
      }
    }
  }

  lemma RaisedRegion(l: Factor, u: Factor, n: int, m: Matrix, level: int, level': int, r0: int, r1: int, c0: int,
                     c1: int)
    requires RegionHasLevel(l, u, n, m, level, r0, r1, c0, c1)
    ensures RegionHasLevel(l, u, n, Raise(l, u, n, m, level', r0, r1, c0, c1), level', r0, r1, c0, c1)
  {
    forall r, c | r0 <= r < r1 && c0 <= c < c1
      ensures HasLevel(l, u, n, Raise(l, u, n, m, level', r0, r1, c0, c1), level', r, c)
    {
      assert HasLevel(l, u, n, m, level, r, c);
    }
  }

  lemma RaiseAgain(l: Factor, u: Factor, n: int, m: Matrix, level: int, level': int, r0: int, r1: int, c0: int, c1: int)
    ensures Raise(l, u, n, Raise(l, u, n, m, level, r0, r1, c0, c1), level', r0, r1, c0, c1) ==
            Raise(l, u, n, m, level', r0, r1, c0, c1)
  {
  }

  /** Pivot rows that lie outside the block are final before the block is touched. */
  ghost predicate PivotsReady(l: Factor, u: Factor, n: int, m: Matrix, p0: int, p1: int, r0: int, r1: int, c0: int,
                              c1: int) {
    && (r0 != p0 ==> RegionHasLevel(l, u, n, m, n, p0, p1, c0, c1))
    && (c0 != p0 ==> RegionHasLevel(l, u, n, m, n, r0, r1, p0, p1))
  }

  lemma BlockOneMorePivot(l: Factor, u: Factor, n: int, m: Matrix, p0: int, i: int, p1: int, r0: int, r1: int, c0: int,
                          c1: int)
    requires Factors(l, u, n) && 0 <= p0 <= i < p1 <= n && r1 <= n && c1 <= n
    requires (r0 == p0 && p1 <= r1) || p1 <= r0
    requires (c0 == p0 && p1 <= c1) || p1 <= c0
    requires RegionHasLevel(l, u, n, m, i, r0, r1, c0, c1) && PivotsReady(l, u, n, m, p0, p1, r0, r1, c0, c1)
    ensures PivotStep(m, i, Max(i + 1, r0), r1, c0, c1) == Raise(l, u, n, m, i + 1, r0, r1, c0, c1)
  {
    var lo, next := Max(i + 1, r0), i + 1;
    RegionPart(l, u, n, m, i, r0, r1, c0, c1, lo, r1, c0, c1);
    forall r, c | i <= r < next && Max(i, c0) <= c < c1 ensures HasLevel(l, u, n, m, next, r, c) {
      if r0 == p0 {
        assert HasLevel(l, u, n, m, i, r, c);
        LevelStable(l, u, n, i, r, c);
      } else {
        assert HasLevel(l, u, n, m, n, r, c);
      }
    }
    if c0 > i {
      forall r, c | lo <= r < r1 && i <= c < next ensures HasLevel(l, u, n, m, next, r, c) {
        assert HasLevel(l, u, n, m, n, r, c);
      }
    }
    PivotStepRaises(l, u, n, m, i, lo, r1, c0, c1);
    RaiseWholeBlock(l, u, n, m, i, r0, r1, c0, c1);
  }

  lemma PivotsStayReady(l: Factor, u: Factor, n: int, m: Matrix, level: int, p0: int, p1: int, r0: int, r1: int,
                        c0: int, c1: int)
    requires (r0 == p0 && p1 <= r1) || p1 <= r0
    requires (c0 == p0 && p1 <= c1) || p1 <= c0
    requires PivotsReady(l, u, n, m, p0, p1, r0, r1, c0, c1)
    ensures PivotsReady(l, u, n, Raise(l, u, n, m, level, r0, r1, c0, c1), p0, p1, r0, r1, c0, c1)
  {
    if r0 != p0 { RegionKept(l, u, n, m, n, p0, p1, c0, c1, level, r0, r1, c0, c1); }
    if c0 != p0 { RegionKept(l, u, n, m, n, r0, r1, p0, p1, level, r0, r1, c0, c1); }
  }

  /** Main result about one block: its pivots raise it from level p0 to level p1 and change
      nothing else. */
  lemma {:induction false} BlockStepRaises(l: Factor, u: Factor, n: int, m: Matrix, p0: int, p: int, p1: int, r0: int,
                                           r1: int, c0: int, c1: int)
    requires Factors(l, u, n) && 0 <= p0 <= p <= p1 <= n && r1 <= n && c1 <= n
    requires (r0 == p0 && p1 <= r1) || p1 <= r0
    requires (c0 == p0 && p1 <= c1) || p1 <= c0
    requires RegionHasLevel(l, u, n, m, p0, r0, r1, c0, c1) && PivotsReady(l, u, n, m, p0, p1, r0, r1, c0, c1)
    ensures BlockStep(m, p0, p, r0, r1, c0, c1) == Raise(l, u, n, m, p, r0, r1, c0, c1)
    decreases p - p0
  {
    if p == p0 {
      forall x | x in m ensures Raise(l, u, n, m, p, r0, r1, c0, c1)[x] == m[x] {
        if In(x, r0, r1, c0, c1) { assert HasLevel(l, u, n, m, p0, x.row, x.col); }
      }
    } else {
      var i := p - 1;
      BlockStepRaises(l, u, n, m, p0, i, p1, r0, r1, c0, c1);
      var m1 := Raise(l, u, n, m, i, r0, r1, c0, c1);
      RaisedRegion(l, u, n, m, p0, i, r0, r1, c0, c1);
      PivotsStayReady(l, u, n, m, i, p0, p1, r0, r1, c0, c1);
      BlockOneMorePivot(l, u, n, m1, p0, i, p1, r0, r1, c0, c1);
      RaiseAgain(l, u, n, m, i, p, r0, r1, c0, c1);
    }
  }

  /** Cells whose row or column lies before the level have their last value. */
  lemma FinalRegion(l: Factor, u: Factor, n: int, m: Matrix, level: int, r0: int, r1: int, c0: int, c1: int)
    requires RegionHasLevel(l, u, n, m, level, r0, r1, c0, c1) && level <= n && (r1 <= level || c1 <= level)
    ensures RegionHasLevel(l, u, n, m, n, r0, r1, c0, c1)
  {
    forall r, c | r0 <= r < r1 && c0 <= c < c1 ensures HasLevel(l, u, n, m, n, r, c) {
      assert HasLevel(l, u, n, m, level, r, c);
    }
  }

  /** A task applied to its block raises it and leaves a disjoint region alone. */
  lemma TaskRaises(l: Factor, u: Factor, n: int, m: Matrix, p0: int, p1: int, r0: int, r1: int, c0: int, c1: int)
    requires Factors(l, u, n) && 0 <= p0 <= p1 <= n && r1 <= n && c1 <= n
    requires (r0 == p0 && p1 <= r1) || p1 <= r0
    requires (c0 == p0 && p1 <= c1) || p1 <= c0
    requires RegionHasLevel(l, u, n, m, p0, r0, r1, c0, c1) && PivotsReady(l, u, n, m, p0, p1, r0, r1, c0, c1)
    ensures BlockStep(m, p0, p1, r0, r1, c0, c1) == Raise(l, u, n, m, p1, r0, r1, c0, c1)
    ensures RegionHasLevel(l, u, n, Raise(l, u, n, m, p1, r0, r1, c0, c1), p1, r0, r1, c0, c1)
  {
    BlockStepRaises(l, u, n, m, p0, p1, p1, r0, r1, c0, c1);
    RaisedRegion(l, u, n, m, p0, p1, r0, r1, c0, c1);
  }
}
