/** mm_funcs.c: the recursive multiplication by halving the longest side, with and without tasks. */
module TileProduct {
  import opened MatrixProduct

  const BASE := 64

  /** What a call leaves at one place: the sum of products, added to the old value if asked for. */
  ghost function Result(add: bool, before: real, a: seq<real>, b: seq<real>): real
    requires |a| == |b|
  {
    (if add then before else 0.0) + Dot(a, b)
  }

  /** The base case: the three loops, for add and for overwrite. */
  method BaseCase(x: array2<real>, xr: nat, xc: nat, y: array2<real>, yr: nat, yc: nat, z: array2<real>, zr: nat,
                  zc: nat, m: nat, n: nat, p: nat, add: bool, ghost a: Mat, ghost b: Mat)
    requires Holds(x, xr, xc, a, m, n) && Holds(y, yr, yc, b, p, n) && zr + m <= z.Length0 && zc + p <= z.Length1
             && z != x && z != y
    modifies z
    ensures forall i, j | zr <= i < zr + m && zc <= j < zc + p ::
              z[i, j] == Result(add, old(z[i, j]), a[i - zr], b[j - zc])
    ensures forall i, j | 0 <= i < z.Length0 && 0 <= j < z.Length1 && Outside(i, j, zr, zc, m, p) ::
              z[i, j] == old(z[i, j])
  {
    for i := 0 to m
      invariant forall r, c | zr <= r < zr + i && zc <= c < zc + p ::
          z[r, c] == Result(add, old(z[r, c]), a[r - zr], b[c - zc])
      invariant forall r, c | 0 <= r < z.Length0 && 0 <= c < z.Length1
                              && (r >= zr + i || Outside(r, c, zr, zc, m, p)) :: z[r, c] == old(z[r, c])
    {
      BaseRow(x, xr + i, xc, y, yr, yc, z, zr + i, zc, n, p, add, a[i], b);
    }
  }

  method BaseRow(x: array2<real>, xr: nat, xc: nat, y: array2<real>, yr: nat, yc: nat, z: array2<real>, row: nat,
                 zc: nat, n: nat, p: nat, add: bool, ghost a: seq<real>, ghost b: Mat)
    requires xr < x.Length0 && xc + n <= x.Length1 && |a| == n && Holds(y, yr, yc, b, p, n) && row < z.Length0
             && zc + p <= z.Length1 && z != x && z != y
    requires forall k | xc <= k < xc + n :: x[xr, k] == a[k - xc]
    modifies z
    ensures forall c | zc <= c < zc + p :: z[row, c] == Result(add, old(z[row, c]), a, b[c - zc])
    ensures forall r, c | 0 <= r < z.Length0 && 0 <= c < z.Length1 && (r != row || c < zc || c >= zc + p) ::
              z[r, c] == old(z[r, c])
  {
    for k := 0 to p
      invariant forall c | zc <= c < zc + k :: z[row, c] == Result(add, old(z[row, c]), a, b[c - zc])
      invariant forall r, c | 0 <= r < z.Length0 && 0 <= c < z.Length1 && (r != row || c < zc || c >= zc + k) ::
          z[r, c] == old(z[r, c])
    {
      var c := RowTimesRow(n, x, xr, xc, y, yr + k, yc, a, b[k]);
      if add {
        z[row, zc + k] := z[row, zc + k] + c;
      } else {
        z[row, zc + k] := c;
      }
    }
  }

  /** Both pieces of a sum over the first n1 and the remaining products make the whole. */
  lemma ResultSplit(add: bool, before: real, a: seq<real>, b: seq<real>, n1: int)
    requires |a| == |b| && 0 <= n1 <= |a|
    ensures Result(add, before, a, b) == Result(true, Result(add, before, a[..n1], b[..n1]), a[n1..], b[n1..])
  {
    DotSplit(a, b, n1);
  }

  /** matmul_omp_task and matmul_recursive_tile.  The two halves in m, and the two halves in p, are
      tasks with no taskwait between them, so they may be run in either order; the two halves in n
      add to the same places and are separated by a taskwait.  With n == 0 and p == 1 the halving
      would not come to an end, so the common side must not be empty. */
  method MatmulTask(x: array2<real>, xr: nat, xc: nat, y: array2<real>, yr: nat, yc: nat, z: array2<real>, zr: nat,
                    zc: nat, m: nat, n: nat, p: nat, add: bool, ghost a: Mat, ghost b: Mat)
    requires Holds(x, xr, xc, a, m, n) && Holds(y, yr, yc, b, p, n) && zr + m <= z.Length0 && zc + p <= z.Length1
             && z != x && z != y
    requires n >= 1
    modifies z
    ensures forall i, j | zr <= i < zr + m && zc <= j < zc + p ::
              z[i, j] == Result(add, old(z[i, j]), a[i - zr], b[j - zc])
    ensures forall i, j | zr <= i < zr + m && zc <= j < zc + p ::
              z[i, j] == (if add then old(z[i, j]) else 0.0) + Dot(a[i - zr], b[j - zc])
    ensures forall i, j | 0 <= i < z.Length0 && 0 <= j < z.Length1 && Outside(i, j, zr, zc, m, p) ::
              z[i, j] == old(z[i, j])
    decreases m + n + p, 2
  {
    if m + n + p <= BASE {
      BaseCase(x, xr, xc, y, yr, yc, z, zr, zc, m, n, p, add, a, b);
    } else if m >= n && n >= p {
      HalveRows(x, xr, xc, y, yr, yc, z, zr, zc, m, n, p, add, a, b);
    } else if n >= m && n >= p {
      HalveSums(x, xr, xc, y, yr, yc, z, zr, zc, m, n, p, add, a, b);
    } else {
      HalveColumns(x, xr, xc, y, yr, yc, z, zr, zc, m, n, p, add, a, b);
    }
  }

  method HalveRows(x: array2<real>, xr: nat, xc: nat, y: array2<real>, yr: nat, yc: nat, z: array2<real>, zr: nat,
                   zc: nat, m: nat, n: nat, p: nat, add: bool, ghost a: Mat, ghost b: Mat)
    requires Holds(x, xr, xc, a, m, n) && Holds(y, yr, yc, b, p, n) && zr + m <= z.Length0 && zc + p <= z.Length1
             && z != x && z != y && m >= 2
    requires n >= 1
    modifies z
    ensures forall i, j | zr <= i < zr + m && zc <= j < zc + p ::
              z[i, j] == Result(add, old(z[i, j]), a[i - zr], b[j - zc])
    ensures forall i, j | 0 <= i < z.Length0 && 0 <= j < z.Length1 && Outside(i, j, zr, zc, m, p) ::
              z[i, j] == old(z[i, j])
    decreases m + n + p, 0
  {
    hide Result;
    var m1 := m / 2;
    var upperFirst: bool := *;
    if upperFirst {
      MatmulTask(x, xr, xc, y, yr, yc, z, zr, zc, m1, n, p, add, a[..m1], b);
      MatmulTask(x, xr + m1, xc, y, yr, yc, z, zr + m1, zc, m - m1, n, p, add, a[m1..], b);
    } else {
      MatmulTask(x, xr + m1, xc, y, yr, yc, z, zr + m1, zc, m - m1, n, p, add, a[m1..], b);
      MatmulTask(x, xr, xc, y, yr, yc, z, zr, zc, m1, n, p, add, a[..m1], b);
    }
  }

  method HalveColumns(x: array2<real>, xr: nat, xc: nat, y: array2<real>, yr: nat, yc: nat, z: array2<real>, zr: nat,
                      zc: nat, m: nat, n: nat, p: nat, add: bool, ghost a: Mat, ghost b: Mat)
    requires Holds(x, xr, xc, a, m, n) && Holds(y, yr, yc, b, p, n) && zr + m <= z.Length0 && zc + p <= z.Length1
             && z != x && z != y && p >= 2
    requires n >= 1
    modifies z
    ensures forall i, j | zr <= i < zr + m && zc <= j < zc + p ::
              z[i, j] == Result(add, old(z[i, j]), a[i - zr], b[j - zc])
    ensures forall i, j | 0 <= i < z.Length0 && 0 <= j < z.Length1 && Outside(i, j, zr, zc, m, p) ::
              z[i, j] == old(z[i, j])
    decreases m + n + p, 0
  {
    hide Result;
    var p1 := p / 2;
    var leftFirst: bool := *;
    if leftFirst {
      MatmulTask(x, xr, xc, y, yr, yc, z, zr, zc, m, n, p1, add, a, b[..p1]);
      MatmulTask(x, xr, xc, y, yr + p1, yc, z, zr, zc + p1, m, n, p - p1, add, a, b[p1..]);
    } else {
      MatmulTask(x, xr, xc, y, yr + p1, yc, z, zr, zc + p1, m, n, p - p1, add, a, b[p1..]);
      MatmulTask(x, xr, xc, y, yr, yc, z, zr, zc, m, n, p1, add, a, b[..p1]);
    }
  }

  method HalveSums(x: array2<real>, xr: nat, xc: nat, y: array2<real>, yr: nat, yc: nat, z: array2<real>, zr: nat,
                   zc: nat, m: nat, n: nat, p: nat, add: bool, ghost a: Mat, ghost b: Mat)
    requires Holds(x, xr, xc, a, m, n) && Holds(y, yr, yc, b, p, n) && zr + m <= z.Length0 && zc + p <= z.Length1
             && z != x && z != y && n >= 2
    requires n >= 1
    modifies z
    ensures forall i, j | zr <= i < zr + m && zc <= j < zc + p ::
              z[i, j] == Result(add, old(z[i, j]), a[i - zr], b[j - zc])
    ensures forall i, j | 0 <= i < z.Length0 && 0 <= j < z.Length1 && Outside(i, j, zr, zc, m, p) ::
              z[i, j] == old(z[i, j])
    decreases m + n + p, 1
  {
    hide Result, Holds;
    var n1 := n / 2;
    SizeOf(x, xr, xc, a, m, n);
    SizeOf(y, yr, yc, b, p, n);
    HoldsBlock(x, xr, xc, a, m, n, 0, 0, m, n1);
    HoldsBlock(x, xr, xc, a, m, n, 0, n1, m, n - n1);
    HoldsBlock(y, yr, yc, b, p, n, 0, 0, p, n1);
    HoldsBlock(y, yr, yc, b, p, n, 0, n1, p, n - n1);
    ghost var a1, a2, b1, b2 := Block(a, 0, 0, m, n1), Block(a, 0, n1, m, n - n1), Block(b, 0, 0, p, n1),
                                Block(b, 0, n1, p, n - n1);
    label Before:
    TwoPasses(x, xr, xc, y, yr, yc, z, zr, zc, m, n, n1, p, add, a1, b1, a2, b2);
    forall i, j | 0 <= i < m && 0 <= j < p
      ensures forall v :: Result(true, Result(add, v, a1[i], b1[j]), a2[i], b2[j]) == Result(add, v, a[i], b[j])
    {
      forall v { BlocksSplit(add, v, a, b, m, n, p, n1, i, j); }
    }
  }

  /** The first n1 products of every sum, then the others. */
  method TwoPasses(x: array2<real>, xr: nat, xc: nat, y: array2<real>, yr: nat, yc: nat, z: array2<real>, zr: nat,
                   zc: nat, m: nat, n: nat, n1: nat, p: nat, add: bool,
                   ghost a1: Mat, ghost b1: Mat, ghost a2: Mat, ghost b2: Mat)
    requires 1 <= n1 < n && Holds(x, xr, xc, a1, m, n1) && Holds(y, yr, yc, b1, p, n1)
             && Holds(x, xr, xc + n1, a2, m, n - n1) && Holds(y, yr, yc + n1, b2, p, n - n1)
    requires zr + m <= z.Length0 && zc + p <= z.Length1 && z != x && z != y
    modifies z
    ensures forall i, j | zr <= i < zr + m && zc <= j < zc + p ::
              z[i, j] == Result(true, Result(add, old(z[i, j]), a1[i - zr], b1[j - zc]), a2[i - zr], b2[j - zc])
    ensures forall i, j | 0 <= i < z.Length0 && 0 <= j < z.Length1 && Outside(i, j, zr, zc, m, p) ::
              z[i, j] == old(z[i, j])
    decreases m + n + p, 0
  {
    hide Result;
    MatmulTask(x, xr, xc, y, yr, yc, z, zr, zc, m, n1, p, add, a1, b1);
    MatmulTask(x, xr, xc + n1, y, yr, yc + n1, z, zr, zc, m, n - n1, p, true, a2, b2);
  }

  lemma BlocksSplit(add: bool, before: real, a: Mat, b: Mat, m: nat, n: nat, p: nat, n1: nat, i: nat, j: nat)
    requires Sized(a, m, n) && Sized(b, p, n) && n1 <= n && i < m && j < p
    ensures Result(true, Result(add, before, Block(a, 0, 0, m, n1)[i], Block(b, 0, 0, p, n1)[j]),
                   Block(a, 0, n1, m, n - n1)[i], Block(b, 0, n1, p, n - n1)[j]) ==
            Result(add, before, a[i], b[j])
  {
    hide Result;
    ResultSplit(add, before, a[i], b[j], n1);
    assert a[i][n1..n1 + (n - n1)] == a[i][n1..] && b[j][n1..n1 + (n - n1)] == b[j][n1..];
  }
}
