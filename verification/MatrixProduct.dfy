/** Matrices as values, the product with the second factor stored transposed, and blocks held in
    two-dimensional arrays. */
module MatrixProduct {
  type Mat = seq<seq<real>>

  ghost predicate Sized(m: Mat, h: int, w: int) {
    |m| == h && forall i | 0 <= i < h :: |m[i]| == w
  }

  /** The sum over k of a[k] b[k]. */
  function Dot(a: seq<real>, b: seq<real>): real
    requires |a| == |b|
  {
    if a == [] then 0.0 else Dot(a[..|a| - 1], b[..|b| - 1]) + a[|a| - 1] * b[|b| - 1]
  }

  /** Row i of a times row j of b: b holds the second factor transposed. */
  ghost function MulT(a: Mat, b: Mat, n: int): (p: Mat)
    requires Sized(a, |a|, n) && Sized(b, |b|, n)
    ensures Sized(p, |a|, |b|)
    ensures forall i, j | 0 <= i < |a| && 0 <= j < |b| :: p[i][j] == Dot(a[i], b[j])
  {
    seq(|a|, i requires 0 <= i < |a| => seq(|b|, j requires 0 <= j < |b| => Dot(a[i], b[j])))
  }

  ghost function AddM(a: Mat, b: Mat, h: int, w: int): (s: Mat)
    requires Sized(a, h, w) && Sized(b, h, w) && h >= 0 && w >= 0
    ensures Sized(s, h, w) && forall i, j | 0 <= i < h && 0 <= j < w :: s[i][j] == a[i][j] + b[i][j]
  {
    seq(h, i requires 0 <= i < h => seq(w, j requires 0 <= j < w => a[i][j] + b[i][j]))
  }

  ghost function SubM(a: Mat, b: Mat, h: int, w: int): (s: Mat)
    requires Sized(a, h, w) && Sized(b, h, w) && h >= 0 && w >= 0
    ensures Sized(s, h, w) && forall i, j | 0 <= i < h && 0 <= j < w :: s[i][j] == a[i][j] - b[i][j]
  {
    seq(h, i requires 0 <= i < h => seq(w, j requires 0 <= j < w => a[i][j] - b[i][j]))
  }

  /** The h by w block of m at (r, c). */
  ghost function Block(m: Mat, r: int, c: int, h: int, w: int): (b: Mat)
    requires r >= 0 && c >= 0 && h >= 0 && w >= 0 && r + h <= |m| && forall i | 0 <= i < |m| :: c + w <= |m[i]|
    ensures Sized(b, h, w) && forall i | 0 <= i < h :: b[i] == m[r + i][c..c + w]
  {
    seq(h, i requires 0 <= i < h => m[r + i][c..c + w])
  }

  // ------------------------------------------------ laws of the sum of products

  lemma DotUnfold(a: seq<real>, b: seq<real>, m: nat)
    requires |a| == |b| == m + 1
    ensures Dot(a, b) == Dot(a[..m], b[..m]) + a[m] * b[m]
  {
  }

  lemma DotNext(a: seq<real>, b: seq<real>, x: real, y: real)
    requires |a| == |b|
    ensures Dot(a + [x], b + [y]) == Dot(a, b) + x * y
  {
    hide Dot;
    var s, t := a + [x], b + [y];
    DotUnfold(s, t, |a|);
    assert s[..|a|] == a && t[..|b|] == b && s[|a|] == x && t[|a|] == y;
  }

  lemma DotEmpty()
    ensures Dot([], []) == 0.0
  {
  }

  lemma {:induction false} DotSplit(a: seq<real>, b: seq<real>, k: int)
    requires |a| == |b| && 0 <= k <= |a|
    ensures Dot(a, b) == Dot(a[..k], b[..k]) + Dot(a[k..], b[k..])
    decreases |a|
  {
    hide Dot;
    if k == |a| {
      DotEmpty();
      assert a[..k] == a && b[..k] == b && a[k..] == [] && b[k..] == [];
    } else {
      var m := |a| - 1;
      DotSplit(a[..m], b[..m], k);
      assert a[..m][..k] == a[..k] && b[..m][..k] == b[..k];
      DotNext(a[..m], b[..m], a[m], b[m]);
      assert a[..m] + [a[m]] == a && b[..m] + [b[m]] == b;
      DotNext(a[..m][k..], b[..m][k..], a[m], b[m]);
      assert a[..m][k..] + [a[m]] == a[k..] && b[..m][k..] + [b[m]] == b[k..];
    }
  }

  lemma DotOne(x: real, y: real)
    ensures Dot([x], [y]) == x * y
  {
  }

  lemma Products(x: real, y: real, z: real)
    ensures (x + y) * z == x * z + y * z && (x - y) * z == x * z - y * z && z * (x + y) == z * x + z * y
            && z * (x - y) == z * x - z * y
  {
  }

  lemma {:induction false} DotAddLeft(a: seq<real>, a': seq<real>, s: seq<real>, b: seq<real>, sign: real)
    requires |a| == |a'| == |s| == |b| && (sign == 1.0 || sign == -1.0)
    requires forall k | 0 <= k < |a| :: s[k] == a[k] + sign * a'[k]
    ensures Dot(s, b) == Dot(a, b) + sign * Dot(a', b)
  {
    hide Dot;
    if a == [] {
      DotEmpty();
    } else {
      var m := |a| - 1;
      DotAddLeft(a[..m], a'[..m], s[..m], b[..m], sign);
      DotUnfold(s, b, m);
      DotUnfold(a, b, m);
      DotUnfold(a', b, m);
      Products(a[m], a'[m], b[m]);
    }
  }

  lemma {:induction false} DotComm(a: seq<real>, b: seq<real>)
    requires |a| == |b|
    ensures Dot(a, b) == Dot(b, a)
  {
    if a != [] { DotComm(a[..|a| - 1], b[..|b| - 1]); }
  }

  // ------------------------------------------------ blocks in arrays

  /** The block of x at (r, c) holds the matrix m of size h by w. */
  ghost predicate Holds(x: array2<real>, r: int, c: int, m: Mat, h: int, w: int)
    reads x
  {
    && Sized(m, h, w) && h >= 0 && w >= 0 && 0 <= r && 0 <= c && r + h <= x.Length0 && c + w <= x.Length1
    && forall i, j | r <= i < r + h && c <= j < c + w :: x[i, j] == m[i - r][j - c]
  }

  lemma SizeOf(x: array2<real>, r: int, c: int, m: Mat, h: int, w: int)
    requires Holds(x, r, c, m, h, w)
    ensures Sized(m, h, w)
  {
  }

  /** A block that holds m holds the blocks of m. */
  lemma HoldsBlock(x: array2<real>, r: int, c: int, m: Mat, h: int, w: int, r0: int, c0: int, h0: int, w0: int)
    requires Holds(x, r, c, m, h, w) && 0 <= r0 && 0 <= c0 && 0 <= h0 && 0 <= w0 && r0 + h0 <= h && c0 + w0 <= w
    ensures Holds(x, r + r0, c + c0, Block(m, r0, c0, h0, w0), h0, w0)
  {
    var b := Block(m, r0, c0, h0, w0);
    forall i, j | r + r0 <= i < r + r0 + h0 && c + c0 <= j < c + c0 + w0
      ensures x[i, j] == b[i - (r + r0)][j - (c + c0)] {
      assert b[i - (r + r0)] == m[i - r][c0..c0 + w0];
    }
  }

  predicate Outside(i: int, j: int, r: int, c: int, h: int, w: int) {
    i < r || i >= r + h || j < c || j >= c + w
  }

  /** matmul_simple: the three loops. */
  method Simple(h: nat, n: nat, w: nat, x: array2<real>, xr: nat, xc: nat, y: array2<real>, yr: nat, yc: nat,
                z: array2<real>, zr: nat, zc: nat,
                ghost a: Mat, ghost b: Mat)
    requires Holds(x, xr, xc, a, h, n) && Holds(y, yr, yc, b, w, n) && zr + h <= z.Length0 && zc + w <= z.Length1
             && z != x && z != y
    modifies z
    ensures Holds(z, zr, zc, MulT(a, b, n), h, w)
    ensures forall i, j | 0 <= i < z.Length0 && 0 <= j < z.Length1 && Outside(i, j, zr, zc, h, w) ::
              z[i, j] == old(z[i, j])
  {
    ghost var p := MulT(a, b, n);
    for i := 0 to h
      invariant forall r, c | zr <= r < zr + i && zc <= c < zc + w :: z[r, c] == p[r - zr][c - zc]
      invariant forall r, c | 0 <= r < z.Length0 && 0 <= c < z.Length1 && Outside(r, c, zr, zc, h, w) ::
          z[r, c] == old(z[r, c])
    {
      SimpleRow(n, w, x, xr + i, xc, y, yr, yc, z, zr + i, zc, a[i], b);
    }
  }

  /** The loop over j. */
  method SimpleRow(n: nat, w: nat, x: array2<real>, xr: nat, xc: nat, y: array2<real>, yr: nat, yc: nat,
                   z: array2<real>, row: nat, zc: nat, ghost a: seq<real>, ghost b: Mat)
    requires xr < x.Length0 && xc + n <= x.Length1 && |a| == n && Holds(y, yr, yc, b, w, n) && row < z.Length0
             && zc + w <= z.Length1 && z != x && z != y
    requires forall k | xc <= k < xc + n :: x[xr, k] == a[k - xc]
    modifies z
    ensures forall c | zc <= c < zc + w :: z[row, c] == Dot(a, b[c - zc])
    ensures forall r, c | 0 <= r < z.Length0 && 0 <= c < z.Length1 && (r != row || c < zc || c >= zc + w) ::
              z[r, c] == old(z[r, c])
  {
    for j := 0 to w
      invariant forall c | zc <= c < zc + j :: z[row, c] == Dot(a, b[c - zc])
      invariant forall r, c | 0 <= r < z.Length0 && 0 <= c < z.Length1 && (r != row || c < zc || c >= zc + w) ::
          z[r, c] == old(z[r, c])
    {
      z[row, zc + j] := RowTimesRow(n, x, xr, xc, y, yr + j, yc, a, b[j]);
    }
  }

  /** The innermost loop. */
  method RowTimesRow(n: nat, x: array2<real>, xr: nat, xc: nat, y: array2<real>, yr: nat, yc: nat, ghost a: seq<real>,
                     ghost b: seq<real>) returns (sum: real)
    requires xr < x.Length0 && xc + n <= x.Length1 && yr < y.Length0 && yc + n <= y.Length1 && |a| == |b| == n
    requires forall k | xc <= k < xc + n :: x[xr, k] == a[k - xc]
    requires forall k | yc <= k < yc + n :: y[yr, k] == b[k - yc]
    ensures sum == Dot(a, b)
  {
    sum := 0.0;
    for k := 0 to n
      invariant sum == Dot(a[..k], b[..k])
    {
      assert a[..k + 1][..k] == a[..k] && b[..k + 1][..k] == b[..k];
      sum := sum + x[xr, xc + k] * y[yr, yc + k];
    }
    assert a[..n] == a && b[..n] == b;
  }
}
