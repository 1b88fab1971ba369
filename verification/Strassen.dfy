/** strass.c: Strassen's multiplication, with four of the seven products kept inside the result. */
module Strassen {
  import opened MatrixProduct

  /** Sizes that can be halved down to 32 or less: b * 2^k with b <= 32. */
  predicate Halves(n: nat) {
    n * n <= MIN_STRASSEN || (n % 2 == 0 && Halves(n / 2))
  }

  const MIN_STRASSEN := 32 * 32

  // ------------------------------------------------ entries of sums and products

  /** Entry (i, j) of x times y, y stored transposed. */
  ghost function Entry(x: Mat, y: Mat, i: int, j: int): real
    requires 0 <= i < |x| && 0 <= j < |y| && |x[i]| == |y[j]|
  {
    Dot(x[i], y[j])
  }

  ghost function Combine(x: Mat, x': Mat, sign: real, h: int): (s: Mat)
    requires Sized(x, h, h) && Sized(x', h, h) && h >= 0
    ensures Sized(s, h, h)
  {
    if sign == 1.0 then AddM(x, x', h, h) else SubM(x, x', h, h)
  }

  lemma EntryOfLeft(x: Mat, x': Mat, y: Mat, sign: real, h: int, i: int, j: int)
    requires Sized(x, h, h) && Sized(x', h, h) && Sized(y, h, h) && 0 <= i < h && 0 <= j < h
             && (sign == 1.0 || sign == -1.0)
    ensures Entry(Combine(x, x', sign, h), y, i, j) == Entry(x, y, i, j) + sign * Entry(x', y, i, j)
  {
    var s := Combine(x, x', sign, h);
    DotAddLeft(x[i], x'[i], s[i], y[j], sign);
  }

  lemma EntryOfRight(x: Mat, y: Mat, y': Mat, sign: real, h: int, i: int, j: int)
    requires Sized(x, h, h) && Sized(y, h, h) && Sized(y', h, h) && 0 <= i < h && 0 <= j < h
             && (sign == 1.0 || sign == -1.0)
    ensures Entry(x, Combine(y, y', sign, h), i, j) == Entry(x, y, i, j) + sign * Entry(x, y', i, j)
  {
    var s := Combine(y, y', sign, h);
    DotComm(x[i], s[j]);
    DotComm(x[i], y[j]);
    DotComm(x[i], y'[j]);
    DotAddLeft(y[j], y'[j], s[j], x[i], sign);
  }

  lemma EntryOfBoth(x: Mat, x': Mat, sx: real, y: Mat, y': Mat, sy: real, h: int, i: int, j: int)
    requires Sized(x, h, h) && Sized(x', h, h) && Sized(y, h, h) && Sized(y', h, h) && 0 <= i < h && 0 <= j < h
    requires (sx == 1.0 || sx == -1.0) && (sy == 1.0 || sy == -1.0)
    ensures Entry(Combine(x, x', sx, h), Combine(y, y', sy, h), i, j) ==
            Entry(x, y, i, j) + sy * Entry(x, y', i, j) + sx * Entry(x', y, i, j) + sx * (sy * Entry(x', y', i, j))
  {
    hide Entry, Combine;
    var s := Combine(y, y', sy, h);
    EntryOfLeft(x, x', s, sx, h, i, j);
    EntryOfRight(x, y, y', sy, h, i, j);
    EntryOfRight(x', y, y', sy, h, i, j);
  }

  /** An entry of the product, told by the quarters of the factors: qa and qb say which half the
      row of each factor lies in. */
  lemma EntryOfQuarters(a: Mat, b: Mat, h: nat, qa: nat, qb: nat, i: int, j: int)
    requires Sized(a, 2 * h, 2 * h) && Sized(b, 2 * h, 2 * h) && qa <= h && qb <= h && 0 <= i < h && 0 <= j < h
    ensures Entry(a, b, qa + i, qb + j) ==
            Entry(Block(a, qa, 0, h, h), Block(b, qb, 0, h, h), i, j) + Entry(Block(a, qa, h, h, h),
                Block(b, qb, h, h, h), i, j)
  {
    var ra, rb := a[qa + i], b[qb + j];
    DotSplit(ra, rb, h);
    assert ra[0..0 + h] == ra[..h] && rb[0..0 + h] == rb[..h];
    assert ra[h..h + h] == ra[h..] && rb[h..h + h] == rb[h..];
  }

  /** The seven products. */
  ghost function P1(a11: Mat, a22: Mat, b11: Mat, b22: Mat, h: int): (p: Mat)
    requires Sized(a11, h, h) && Sized(a22, h, h) && Sized(b11, h, h) && Sized(b22, h, h) && h >= 0
    ensures Sized(p, h, h)
  {
    MulT(Combine(a11, a22, 1.0, h), Combine(b11, b22, 1.0, h), h)
  }

  ghost function LeftSum(x: Mat, x': Mat, y: Mat, h: int): (p: Mat)
    requires Sized(x, h, h) && Sized(x', h, h) && Sized(y, h, h) && h >= 0
    ensures Sized(p, h, h)
  {
    MulT(Combine(x, x', 1.0, h), y, h)
  }

  ghost function RightDifference(x: Mat, y: Mat, y': Mat, h: int): (p: Mat)
    requires Sized(x, h, h) && Sized(y, h, h) && Sized(y', h, h) && h >= 0
    ensures Sized(p, h, h)
  {
    MulT(x, Combine(y, y', -1.0, h), h)
  }

  ghost function DifferenceSum(x: Mat, x': Mat, y: Mat, y': Mat, h: int): (p: Mat)
    requires Sized(x, h, h) && Sized(x', h, h) && Sized(y, h, h) && Sized(y', h, h) && h >= 0
    ensures Sized(p, h, h)
  {
    MulT(Combine(x, x', -1.0, h), Combine(y, y', 1.0, h), h)
  }

  lemma ProductEntries(x: Mat, x': Mat, y: Mat, y': Mat, h: int, i: int, j: int)
    requires Sized(x, h, h) && Sized(x', h, h) && Sized(y, h, h) && Sized(y', h, h) && 0 <= i < h && 0 <= j < h
    ensures P1(x, x', y, y', h)[i][j] ==
            Entry(x, y, i, j) + Entry(x, y', i, j) + Entry(x', y, i, j) + Entry(x', y', i, j)
    ensures LeftSum(x, x', y, h)[i][j] == Entry(x, y, i, j) + Entry(x', y, i, j)
    ensures RightDifference(x, y, y', h)[i][j] == Entry(x, y, i, j) - Entry(x, y', i, j)
    ensures DifferenceSum(x, x', y, y', h)[i][j] ==
            Entry(x, y, i, j) + Entry(x, y', i, j) - Entry(x', y, i, j) - Entry(x', y', i, j)
  {
    hide Combine, Dot;
    EntryOfBoth(x, x', 1.0, y, y', 1.0, h, i, j);
    EntryOfLeft(x, x', y, 1.0, h, i, j);
    EntryOfRight(x, y, y', -1.0, h, i, j);
    EntryOfBoth(x, x', -1.0, y, y', 1.0, h, i, j);
  }

  /** What the combining steps put into the quarter that held p: (p + p1) + (q - r), or p + q. */
  ghost function Corner(p: Mat, p1: Mat, q: Mat, r: Mat, h: int): (c: Mat)
    requires Sized(p, h, h) && Sized(p1, h, h) && Sized(q, h, h) && Sized(r, h, h) && h >= 0
    ensures Sized(c, h, h)
  {
    AddM(AddM(p, p1, h, h), SubM(q, r, h, h), h, h)
  }

  /** The quarters of a factor; for the second one, stored transposed, m12 is the quarter below. */
  datatype Quarters = Quarters(m11: Mat, m12: Mat, m21: Mat, m22: Mat)

  ghost predicate Fits(q: Quarters, h: int) {
    h >= 0 && Sized(q.m11, h, h) && Sized(q.m12, h, h) && Sized(q.m21, h, h) && Sized(q.m22, h, h)
  }

  ghost function QuartersOf(m: Mat, h: nat): (q: Quarters)
    requires Sized(m, 2 * h, 2 * h)
    ensures Fits(q, h)
  {
    Quarters(Block(m, 0, 0, h, h), Block(m, 0, h, h, h), Block(m, h, 0, h, h), Block(m, h, h, h, h))
  }

  ghost function TransposedQuarters(m: Mat, h: nat): (q: Quarters)
    requires Sized(m, 2 * h, 2 * h)
    ensures Fits(q, h)
  {
    Quarters(Block(m, 0, 0, h, h), Block(m, h, 0, h, h), Block(m, 0, h, h, h), Block(m, h, h, h, h))
  }

  ghost function Result11(a: Quarters, b: Quarters, h: int): (r: Mat)
    requires Fits(a, h) && Fits(b, h)
    ensures Sized(r, h, h)
  {
    Corner(DifferenceSum(a.m12, a.m22, b.m21, b.m22, h), P1(a.m11, a.m22, b.m11, b.m22, h),
           RightDifference(a.m22, b.m21, b.m11, h), LeftSum(a.m11, a.m12, b.m22, h), h)
  }

  ghost function Result22(a: Quarters, b: Quarters, h: int): (r: Mat)
    requires Fits(a, h) && Fits(b, h)
    ensures Sized(r, h, h)
  {
    Corner(DifferenceSum(a.m21, a.m11, b.m11, b.m12, h), P1(a.m11, a.m22, b.m11, b.m22, h),
           RightDifference(a.m11, b.m12, b.m22, h), LeftSum(a.m21, a.m22, b.m11, h), h)
  }

  ghost function Result12(a: Quarters, b: Quarters, h: int): (r: Mat)
    requires Fits(a, h) && Fits(b, h)
    ensures Sized(r, h, h)
  {
    AddM(LeftSum(a.m11, a.m12, b.m22, h), RightDifference(a.m11, b.m12, b.m22, h), h, h)
  }

  ghost function Result21(a: Quarters, b: Quarters, h: int): (r: Mat)
    requires Fits(a, h) && Fits(b, h)
    ensures Sized(r, h, h)
  {
    AddM(LeftSum(a.m21, a.m22, b.m11, h), RightDifference(a.m22, b.m21, b.m11, h), h, h)
  }

  lemma ResultEntries(a: Quarters, b: Quarters, h: int, i: int, j: int)
    requires Fits(a, h) && Fits(b, h) && 0 <= i < h && 0 <= j < h
    ensures Result12(a, b, h)[i][j] == Entry(a.m11, b.m12, i, j) + Entry(a.m12, b.m22, i, j)
    ensures Result21(a, b, h)[i][j] == Entry(a.m21, b.m11, i, j) + Entry(a.m22, b.m21, i, j)
  {
    hide P1, LeftSum, RightDifference, DifferenceSum, Entry;
    ProductEntries(a.m11, a.m12, b.m22, b.m22, h, i, j);
    ProductEntries(a.m11, a.m11, b.m12, b.m22, h, i, j);
    ProductEntries(a.m21, a.m22, b.m11, b.m11, h, i, j);
    ProductEntries(a.m22, a.m22, b.m21, b.m11, h, i, j);
  }

  lemma CornerEntries(a: Quarters, b: Quarters, h: int, i: int, j: int)
    requires Fits(a, h) && Fits(b, h) && 0 <= i < h && 0 <= j < h
    ensures Result11(a, b, h)[i][j] == Entry(a.m11, b.m11, i, j) + Entry(a.m12, b.m21, i, j)
    ensures Result22(a, b, h)[i][j] == Entry(a.m21, b.m12, i, j) + Entry(a.m22, b.m22, i, j)
  {
    hide P1, LeftSum, RightDifference, DifferenceSum, Entry;
    ProductEntries(a.m11, a.m22, b.m11, b.m22, h, i, j);
    ProductEntries(a.m12, a.m22, b.m21, b.m22, h, i, j);
    ProductEntries(a.m22, a.m22, b.m21, b.m11, h, i, j);
    ProductEntries(a.m11, a.m12, b.m22, b.m22, h, i, j);
    ProductEntries(a.m21, a.m11, b.m11, b.m12, h, i, j);
    ProductEntries(a.m11, a.m11, b.m12, b.m22, h, i, j);
    ProductEntries(a.m21, a.m22, b.m11, b.m11, h, i, j);
  }

  /** Main identity: the four combinations are the quarters of the product. */
  lemma StrassenIdentity(a: Mat, b: Mat, h: nat)
    requires Sized(a, 2 * h, 2 * h) && Sized(b, 2 * h, 2 * h)
    ensures var x, y := QuartersOf(a, h), TransposedQuarters(b, h);
            QuartersOf(MulT(a, b, 2 * h), h) ==
            Quarters(Result11(x, y, h), Result12(x, y, h), Result21(x, y, h), Result22(x, y, h))
  {
    hide Result11, Result12, Result21, Result22, QuartersOf, TransposedQuarters;
    QuarterIs(a, b, h, 0, 0, Result11(QuartersOf(a, h), TransposedQuarters(b, h), h));
    QuarterIs(a, b, h, 0, h, Result12(QuartersOf(a, h), TransposedQuarters(b, h), h));
    QuarterIs(a, b, h, h, 0, Result21(QuartersOf(a, h), TransposedQuarters(b, h), h));
    QuarterIs(a, b, h, h, h, Result22(QuartersOf(a, h), TransposedQuarters(b, h), h));
    ProductQuarters(a, b, h);
  }

  lemma ProductQuarters(a: Mat, b: Mat, h: nat)
    requires Sized(a, 2 * h, 2 * h) && Sized(b, 2 * h, 2 * h)
    ensures var c := MulT(a, b, 2 * h);
            QuartersOf(c, h) ==
            Quarters(Block(c, 0, 0, h, h), Block(c, 0, h, h, h), Block(c, h, 0, h, h), Block(c, h, h, h, h))
  {
  }

  lemma QuarterIs(a: Mat, b: Mat, h: nat, qa: nat, qb: nat, r: Mat)
    requires Sized(a, 2 * h, 2 * h) && Sized(b, 2 * h, 2 * h) && (qa == 0 || qa == h) && (qb == 0 || qb == h)
    requires var x, y := QuartersOf(a, h), TransposedQuarters(b, h);
             r == if qa == 0 && qb == 0 then Result11(x, y, h) else if qa == 0 then Result12(x, y, h) else if qb == 0
             then Result21(x, y, h) else Result22(x, y, h)
    ensures r == Block(MulT(a, b, 2 * h), qa, qb, h, h)
  {
    hide Result11, Result12, Result21, Result22, MulT;
    var x, y, q := QuartersOf(a, h), TransposedQuarters(b, h), Block(MulT(a, b, 2 * h), qa, qb, h, h);
    forall i, j | 0 <= i < h && 0 <= j < h ensures r[i][j] == q[i][j] {
      CornerEntries(x, y, h, i, j);
      ResultEntries(x, y, h, i, j);
      EntryOfQuarters(a, b, h, qa, qb, i, j);
    }
    SameMatrix(r, q, h);
  }

  lemma SameMatrix(x: Mat, y: Mat, h: int)
    requires Sized(x, h, h) && Sized(y, h, h) && forall i, j | 0 <= i < h && 0 <= j < h :: x[i][j] == y[i][j]
    ensures x == y
  {
    forall i | 0 <= i < h ensures x[i] == y[i] {
    }
  }

  // ------------------------------------------------ the routines

  /** matmul_add_r; the result may replace the first operand. */
  method AddR(x: array2<real>, xr: nat, xc: nat, y: array2<real>, yr: nat, yc: nat, z: array2<real>, zr: nat, zc: nat,
              h: nat, w: nat, ghost a: Mat, ghost b: Mat)
    requires Holds(x, xr, xc, a, h, w) && Holds(y, yr, yc, b, h, w) && zr + h <= z.Length0 && zc + w <= z.Length1
    requires z != y && (z == x ==> zr == xr && zc == xc)
    modifies z
    ensures Holds(z, zr, zc, AddM(a, b, h, w), h, w)
    ensures forall i, j | 0 <= i < z.Length0 && 0 <= j < z.Length1 && Outside(i, j, zr, zc, h, w) ::
              z[i, j] == old(z[i, j])
  {
    ghost var s := AddM(a, b, h, w);
    for i := 0 to h
      invariant forall r, c | zr <= r < zr + i && zc <= c < zc + w :: z[r, c] == s[r - zr][c - zc]
      invariant forall r, c | xr + i <= r < xr + h && xc <= c < xc + w :: x[r, c] == a[r - xr][c - xc]
      invariant forall r, c | 0 <= r < z.Length0 && 0 <= c < z.Length1 && Outside(r, c, zr, zc, h, w) ::
          z[r, c] == old(z[r, c])
    {
      AddRow(x, xr + i, xc, y, yr + i, yc, z, zr + i, zc, w, a[i], b[i]);
    }
  }

  method AddRow(x: array2<real>, xr: nat, xc: nat, y: array2<real>, yr: nat, yc: nat, z: array2<real>, zr: nat, zc: nat,
                w: nat, ghost a: seq<real>, ghost b: seq<real>)
    requires xr < x.Length0 && yr < y.Length0 && zr < z.Length0 && xc + w <= x.Length1 && yc + w <= y.Length1
             && zc + w <= z.Length1 && |a| == |b| == w
    requires z != y && (z == x ==> zr == xr && zc == xc)
    requires forall c | xc <= c < xc + w :: x[xr, c] == a[c - xc]
    requires forall c | yc <= c < yc + w :: y[yr, c] == b[c - yc]
    modifies z
    ensures forall c | zc <= c < zc + w :: z[zr, c] == a[c - zc] + b[c - zc]
    ensures forall r, c | 0 <= r < z.Length0 && 0 <= c < z.Length1 && (r != zr || c < zc || c >= zc + w) ::
              z[r, c] == old(z[r, c])
  {
    for j := 0 to w
      invariant forall c | zc <= c < zc + j :: z[zr, c] == a[c - zc] + b[c - zc]
      invariant forall c | xc + j <= c < xc + w :: x[xr, c] == a[c - xc]
      invariant forall r, c | 0 <= r < z.Length0 && 0 <= c < z.Length1 && (r != zr || c < zc || c >= zc + w) ::
          z[r, c] == old(z[r, c])
    {
      z[zr, zc + j] := x[xr, xc + j] + y[yr, yc + j];
    }
  }

  /** matmul_sub_r; the result may replace the first operand. */
  method SubR(x: array2<real>, xr: nat, xc: nat, y: array2<real>, yr: nat, yc: nat, z: array2<real>, zr: nat, zc: nat,
              h: nat, w: nat, ghost a: Mat, ghost b: Mat)
    requires Holds(x, xr, xc, a, h, w) && Holds(y, yr, yc, b, h, w) && zr + h <= z.Length0 && zc + w <= z.Length1
    requires z != y && (z == x ==> zr == xr && zc == xc)
    modifies z
    ensures Holds(z, zr, zc, SubM(a, b, h, w), h, w)
    ensures forall i, j | 0 <= i < z.Length0 && 0 <= j < z.Length1 && Outside(i, j, zr, zc, h, w) ::
              z[i, j] == old(z[i, j])
  {
    ghost var s := SubM(a, b, h, w);
    for i := 0 to h
      invariant forall r, c | zr <= r < zr + i && zc <= c < zc + w :: z[r, c] == s[r - zr][c - zc]
      invariant forall r, c | xr + i <= r < xr + h && xc <= c < xc + w :: x[r, c] == a[r - xr][c - xc]
      invariant forall r, c | 0 <= r < z.Length0 && 0 <= c < z.Length1 && Outside(r, c, zr, zc, h, w) ::
          z[r, c] == old(z[r, c])
    {
      SubRow(x, xr + i, xc, y, yr + i, yc, z, zr + i, zc, w, a[i], b[i]);
    }
  }

  method SubRow(x: array2<real>, xr: nat, xc: nat, y: array2<real>, yr: nat, yc: nat, z: array2<real>, zr: nat, zc: nat,
                w: nat, ghost a: seq<real>, ghost b: seq<real>)
    requires xr < x.Length0 && yr < y.Length0 && zr < z.Length0 && xc + w <= x.Length1 && yc + w <= y.Length1
             && zc + w <= z.Length1 && |a| == |b| == w
    requires z != y && (z == x ==> zr == xr && zc == xc)
    requires forall c | xc <= c < xc + w :: x[xr, c] == a[c - xc]
    requires forall c | yc <= c < yc + w :: y[yr, c] == b[c - yc]
    modifies z
    ensures forall c | zc <= c < zc + w :: z[zr, c] == a[c - zc] - b[c - zc]
    ensures forall r, c | 0 <= r < z.Length0 && 0 <= c < z.Length1 && (r != zr || c < zc || c >= zc + w) ::
              z[r, c] == old(z[r, c])
  {
    for j := 0 to w
      invariant forall c | zc <= c < zc + j :: z[zr, c] == a[c - zc] - b[c - zc]
      invariant forall c | xc + j <= c < xc + w :: x[xr, c] == a[c - xc]
      invariant forall r, c | 0 <= r < z.Length0 && 0 <= c < z.Length1 && (r != zr || c < zc || c >= zc + w) ::
          z[r, c] == old(z[r, c])
    {
      z[zr, zc + j] := x[xr, xc + j] - y[yr, yc + j];
    }
  }

  /** matmul_matmul: the simple loops for small sizes, Strassen's step for the others. */
  method Matmul(n: nat, x: array2<real>, xr: nat, xc: nat, y: array2<real>, yr: nat, yc: nat, z: array2<real>, zr: nat,
                zc: nat, ghost a: Mat, ghost b: Mat)
    requires Halves(n) && Holds(x, xr, xc, a, n, n) && Holds(y, yr, yc, b, n, n) && zr + n <= z.Length0
             && zc + n <= z.Length1 && z != x && z != y
    modifies z
    ensures Holds(z, zr, zc, MulT(a, b, n), n, n)
    ensures forall i, j | 0 <= i < z.Length0 && 0 <= j < z.Length1 && Outside(i, j, zr, zc, n, n) ::
              z[i, j] == old(z[i, j])
    decreases n, 2
  {
    if n * n <= MIN_STRASSEN {
      Simple(n, n, n, x, xr, xc, y, yr, yc, z, zr, zc, a, b);
    } else {
      StrassenStep(n, x, xr, xc, y, yr, yc, z, zr, zc, a, b);
    }
  }

  /** P = (A1 + A2) * (B1 + B2), for P1. */
  method HelperP1(h: nat, x: array2<real>, r1: nat, c1: nat, r2: nat, c2: nat, y: array2<real>, s1: nat, d1: nat,
                  s2: nat, d2: nat, p: array2<real>, pr: nat, pc: nat,
                  ghost a1: Mat, ghost a2: Mat, ghost b1: Mat, ghost b2: Mat)
    requires Halves(h) && Holds(x, r1, c1, a1, h, h) && Holds(x, r2, c2, a2, h, h) && Holds(y, s1, d1, b1, h, h)
             && Holds(y, s2, d2, b2, h, h)
    requires pr + h <= p.Length0 && pc + h <= p.Length1 && p != x && p != y
    modifies p
    ensures Holds(p, pr, pc, P1(a1, a2, b1, b2, h), h, h)
    ensures forall i, j | 0 <= i < p.Length0 && 0 <= j < p.Length1 && Outside(i, j, pr, pc, h, h) ::
              p[i, j] == old(p[i, j])
    decreases h, 3, 0
  {
    hide Halves;
    var f, s := new real[h, h], new real[h, h];
    AddR(x, r1, c1, x, r2, c2, f, 0, 0, h, h, a1, a2);
    AddR(y, s1, d1, y, s2, d2, s, 0, 0, h, h, b1, b2);
    Matmul(h, f, 0, 0, s, 0, 0, p, pr, pc, Combine(a1, a2, 1.0, h), Combine(b1, b2, 1.0, h));
  }

  /** P = (A1 + A2) * B, for P2 and P5. */
  method HelperP2P5(h: nat, x: array2<real>, r1: nat, c1: nat, r2: nat, c2: nat, y: array2<real>, s1: nat, d1: nat,
                    p: array2<real>, pr: nat, pc: nat,
                    ghost a1: Mat, ghost a2: Mat, ghost b: Mat)
    requires Halves(h) && Holds(x, r1, c1, a1, h, h) && Holds(x, r2, c2, a2, h, h) && Holds(y, s1, d1, b, h, h)
    requires pr + h <= p.Length0 && pc + h <= p.Length1 && p != x && p != y
    modifies p
    ensures Holds(p, pr, pc, LeftSum(a1, a2, b, h), h, h)
    ensures forall i, j | 0 <= i < p.Length0 && 0 <= j < p.Length1 && Outside(i, j, pr, pc, h, h) ::
              p[i, j] == old(p[i, j])
    decreases h, 3, 0
  {
    hide Halves;
    var f := new real[h, h];
    AddR(x, r1, c1, x, r2, c2, f, 0, 0, h, h, a1, a2);
    Matmul(h, f, 0, 0, y, s1, d1, p, pr, pc, Combine(a1, a2, 1.0, h), b);
  }

  /** P = A * (B1 - B2), for P3 and P4. */
  method HelperP3P4(h: nat, x: array2<real>, r1: nat, c1: nat, y: array2<real>, s1: nat, d1: nat, s2: nat, d2: nat,
                    p: array2<real>, pr: nat, pc: nat,
                    ghost a: Mat, ghost b1: Mat, ghost b2: Mat)
    requires Halves(h) && Holds(x, r1, c1, a, h, h) && Holds(y, s1, d1, b1, h, h) && Holds(y, s2, d2, b2, h, h)
    requires pr + h <= p.Length0 && pc + h <= p.Length1 && p != x && p != y
    modifies p
    ensures Holds(p, pr, pc, RightDifference(a, b1, b2, h), h, h)
    ensures forall i, j | 0 <= i < p.Length0 && 0 <= j < p.Length1 && Outside(i, j, pr, pc, h, h) ::
              p[i, j] == old(p[i, j])
    decreases h, 3, 0
  {
    hide Halves;
    var s := new real[h, h];
    SubR(y, s1, d1, y, s2, d2, s, 0, 0, h, h, b1, b2);
    Matmul(h, x, r1, c1, s, 0, 0, p, pr, pc, a, Combine(b1, b2, -1.0, h));
  }

  /** P = (A1 - A2) * (B1 + B2), for P6 and P7. */
  method HelperP6P7(h: nat, x: array2<real>, r1: nat, c1: nat, r2: nat, c2: nat, y: array2<real>, s1: nat, d1: nat,
                    s2: nat, d2: nat, p: array2<real>, pr: nat, pc: nat,
                    ghost a1: Mat, ghost a2: Mat, ghost b1: Mat, ghost b2: Mat)
    requires Halves(h) && Holds(x, r1, c1, a1, h, h) && Holds(x, r2, c2, a2, h, h) && Holds(y, s1, d1, b1, h, h)
             && Holds(y, s2, d2, b2, h, h)
    requires pr + h <= p.Length0 && pc + h <= p.Length1 && p != x && p != y
    modifies p
    ensures Holds(p, pr, pc, DifferenceSum(a1, a2, b1, b2, h), h, h)
    ensures forall i, j | 0 <= i < p.Length0 && 0 <= j < p.Length1 && Outside(i, j, pr, pc, h, h) ::
              p[i, j] == old(p[i, j])
    decreases h, 3, 0
  {
    hide Halves;
    var f, s := new real[h, h], new real[h, h];
    SubR(x, r1, c1, x, r2, c2, f, 0, 0, h, h, a1, a2);
    AddR(y, s1, d1, y, s2, d2, s, 0, 0, h, h, b1, b2);
    Matmul(h, f, 0, 0, s, 0, 0, p, pr, pc, Combine(a1, a2, -1.0, h), Combine(b1, b2, 1.0, h));
  }

  /** C = ([P1 = C] + P2) + (P3 - P4), for C11 and C22; the fourth matrix lies in C as well. */
  method CombineCorner(h: nat, z: array2<real>, zr: nat, zc: nat, p2: array2<real>, p3: array2<real>, yr: nat, yc: nat,
                       y: array2<real>,
                       ghost p: Mat, ghost q2: Mat, ghost q3: Mat, ghost q4: Mat)
    requires Holds(z, zr, zc, p, h, h) && Holds(p2, 0, 0, q2, h, h) && Holds(p3, 0, 0, q3, h, h)
             && Holds(y, yr, yc, q4, h, h)
    requires z != p2 && z != p3 && (z == y ==> zr + h <= yr || yr + h <= zr || zc + h <= yc || yc + h <= zc)
    modifies z
    ensures Holds(z, zr, zc, Corner(p, q2, q3, q4, h), h, h)
    ensures forall i, j | 0 <= i < z.Length0 && 0 <= j < z.Length1 && Outside(i, j, zr, zc, h, h) ::
              z[i, j] == old(z[i, j])
  {
    hide AddM, SubM;
    var s := new real[h, h];
    AddR(z, zr, zc, p2, 0, 0, z, zr, zc, h, h, p, q2);
    SubR(p3, 0, 0, y, yr, yc, s, 0, 0, h, h, q3, q4);
    AddR(z, zr, zc, s, 0, 0, z, zr, zc, h, h, AddM(p, q2, h, h), SubM(q3, q4, h, h));
  }

  lemma HoldsQuarters(x: array2<real>, r: nat, c: nat, m: Mat, h: nat)
    requires Sized(m, 2 * h, 2 * h) && Holds(x, r, c, m, 2 * h, 2 * h)
    ensures HoldFour(x, r, c, QuartersOf(m, h), h, false) && HoldFour(x, r, c, TransposedQuarters(m, h), h, true)
  {
    hide Holds;
    HoldsBlock(x, r, c, m, 2 * h, 2 * h, 0, 0, h, h);
    HoldsBlock(x, r, c, m, 2 * h, 2 * h, 0, h, h, h);
    HoldsBlock(x, r, c, m, 2 * h, 2 * h, h, 0, h, h);
    HoldsBlock(x, r, c, m, 2 * h, 2 * h, h, h, h, h);
  }

  lemma QuartersHold(x: array2<real>, r: nat, c: nat, m: Mat, h: nat)
    requires Sized(m, 2 * h, 2 * h) && HoldFour(x, r, c, QuartersOf(m, h), h, false)
    ensures Holds(x, r, c, m, 2 * h, 2 * h)
  {
    forall i, j | r <= i < r + 2 * h && c <= j < c + 2 * h ensures x[i, j] == m[i - r][j - c] {
      var qi, qj := if i - r < h then 0 else h, if j - c < h then 0 else h;
      var b := Block(m, qi, qj, h, h);
      assert b[i - r - qi] == m[i - r][qj..qj + h];
      assert x[i, j] == b[i - r - qi][j - c - qj];
    }
  }

  /** The four quarters of the block of x at (r, c) hold those of q. */
  ghost predicate HoldFour(x: array2<real>, r: int, c: int, q: Quarters, h: int, transposed: bool)
    reads x
  {
    && Holds(x, r, c, q.m11, h, h) && Holds(x, r + h, c + h, q.m22, h, h)
    && (if transposed then Holds(x, r + h, c, q.m12, h, h) && Holds(x, r, c + h, q.m21, h, h)
        else Holds(x, r, c + h, q.m12, h, h) && Holds(x, r + h, c, q.m21, h, h))
  }

  /** The seven products by number. */
  ghost function ProductOf(k: int, a: Quarters, b: Quarters, h: int): (p: Mat)
    requires Fits(a, h) && Fits(b, h)
    ensures Sized(p, h, h)
  {
    if k == 1 then P1(a.m11, a.m22, b.m11, b.m22, h)
    else if k == 2 then LeftSum(a.m21, a.m22, b.m11, h)
    else if k == 3 then RightDifference(a.m11, b.m12, b.m22, h)
    else if k == 4 then RightDifference(a.m22, b.m21, b.m11, h)
    else if k == 5 then LeftSum(a.m11, a.m12, b.m22, h)
    else if k == 6 then DifferenceSum(a.m21, a.m11, b.m11, b.m12, h)
    else DifferenceSum(a.m12, a.m22, b.m21, b.m22, h)
  }

  /** P2 is computed in C21, P5 in C12, P6 in C22 and P7 in C11; P1, P3 and P4 have buffers. */
  predicate InResult(k: int) { k == 2 || k == 5 || k == 6 || k == 7 }

  function QuarterRow(k: int, h: int): int { if k == 2 || k == 6 then h else 0 }

  function QuarterColumn(k: int, h: int): int { if k == 5 || k == 6 then h else 0 }

  ghost predicate ProductInResult(k: int, z: array2<real>, zr: int, zc: int, a: Quarters, b: Quarters, h: int)
    requires Fits(a, h) && Fits(b, h)
    reads z
  {
    Holds(z, zr + QuarterRow(k, h), zc + QuarterColumn(k, h), ProductOf(k, a, b, h), h, h)
  }

  ghost predicate ProductInBuffer(k: int, p1: array2<real>, p3: array2<real>, p4: array2<real>, a: Quarters,
                                  b: Quarters, h: int)
    requires Fits(a, h) && Fits(b, h)
    reads p1, p3, p4
  {
    Holds(if k == 1 then p1 else if k == 3 then p3 else p4, 0, 0, ProductOf(k, a, b, h), h, h)
  }

  /** The products in `done` are in place. */
  ghost predicate ProductsIn(done: set<int>, z: array2<real>, zr: int, zc: int, p1: array2<real>, p3: array2<real>,
                             p4: array2<real>, a: Quarters, b: Quarters, h: int)
    requires Fits(a, h) && Fits(b, h)
    reads z, p1, p3, p4
  {
    forall k | k in done ::
      if InResult(k) then ProductInResult(k, z, zr, zc, a, b, h) else ProductInBuffer(k, p1, p3, p4, a, b, h)
  }

  /** The seven tasks, up to the taskwait, taken in any order. */
  method SevenProducts(h: nat, x: array2<real>, xr: nat, xc: nat, y: array2<real>, yr: nat, yc: nat, z: array2<real>,
                       zr: nat, zc: nat,
                       p1: array2<real>, p3: array2<real>, p4: array2<real>, ghost a: Quarters, ghost b: Quarters)
    requires Halves(h) && Fits(a, h) && Fits(b, h) && HoldFour(x, xr, xc, a, h, false)
             && HoldFour(y, yr, yc, b, h, true)
    requires zr + 2 * h <= z.Length0 && zc + 2 * h <= z.Length1 && z != x && z != y
    requires p1.Length0 == p1.Length1 == p3.Length0 == p3.Length1 == p4.Length0 == p4.Length1 == h
    requires p1 != p3 && p1 != p4 && p3 != p4 && {p1, p3, p4} !! {x, y, z}
    modifies z, p1, p3, p4
    ensures ProductsIn({1, 2, 3, 4, 5, 6, 7}, z, zr, zc, p1, p3, p4, a, b, h)
    ensures forall i, j | 0 <= i < z.Length0 && 0 <= j < z.Length1 && Outside(i, j, zr, zc, 2 * h, 2 * h) ::
              z[i, j] == old(z[i, j])
    decreases h, 6
  {
    hide Holds, ProductOf, Halves;
    var pending := {1, 2, 3, 4, 5, 6, 7};
    while pending != {}
      invariant pending <= {1, 2, 3, 4, 5, 6, 7}
      invariant HoldFour(x, xr, xc, a, h, false) && HoldFour(y, yr, yc, b, h, true)
      invariant ProductsIn({1, 2, 3, 4, 5, 6, 7} - pending, z, zr, zc, p1, p3, p4, a, b, h)
      invariant forall i, j | 0 <= i < z.Length0 && 0 <= j < z.Length1 && Outside(i, j, zr, zc, 2 * h, 2 * h) ::
                  z[i, j] == old(z[i, j])
      decreases |pending|
    {
      var k :| k in pending;
      ghost var done := {1, 2, 3, 4, 5, 6, 7} - pending;
      if InResult(k) {
        RunInResult(k, h, x, xr, xc, y, yr, yc, z, zr, zc, p1, p3, p4, a, b, done);
      } else {
        RunInBuffer(k, h, x, xr, xc, y, yr, yc, z, zr, zc, p1, p3, p4, a, b, done);
      }
      pending := pending - {k};
      assert {1, 2, 3, 4, 5, 6, 7} - pending == done + {k};
    }
    assert {1, 2, 3, 4, 5, 6, 7} - pending == {1, 2, 3, 4, 5, 6, 7};
  }

  /** One of the three tasks with a buffer. */
  method RunInBuffer(k: int, h: nat, x: array2<real>, xr: nat, xc: nat, y: array2<real>, yr: nat, yc: nat,
                     z: array2<real>, zr: nat, zc: nat,
                p1: array2<real>, p3: array2<real>, p4: array2<real>, ghost a: Quarters, ghost b: Quarters,
                ghost done: set<int>)
    requires Halves(h) && Fits(a, h) && Fits(b, h) && HoldFour(x, xr, xc, a, h, false)
             && HoldFour(y, yr, yc, b, h, true)
    requires p1.Length0 == p1.Length1 == p3.Length0 == p3.Length1 == p4.Length0 == p4.Length1 == h
    requires p1 != p3 && p1 != p4 && p3 != p4 && {p1, p3, p4} !! {x, y, z}
    requires k == 1 || k == 3 || k == 4
    requires k !in done && done <= {1, 2, 3, 4, 5, 6, 7} && ProductsIn(done, z, zr, zc, p1, p3, p4, a, b, h)
    modifies p1, p3, p4
    ensures ProductsIn(done + {k}, z, zr, zc, p1, p3, p4, a, b, h)
    decreases h, 4
  {
    hide Holds, Halves, P1, RightDifference, LeftSum, DifferenceSum;
    label Before:
    if k == 1 {
      HelperP1(h, x, xr, xc, xr + h, xc + h, y, yr, yc, yr + h, yc + h, p1, 0, 0, a.m11, a.m22, b.m11, b.m22);
    } else if k == 3 {
      HelperP3P4(h, x, xr, xc, y, yr + h, yc, yr + h, yc + h, p3, 0, 0, a.m11, b.m12, b.m22);
    } else {
      HelperP3P4(h, x, xr + h, xc + h, y, yr, yc + h, yr, yc, p4, 0, 0, a.m22, b.m21, b.m11);
    }
    assert ProductInBuffer(k, p1, p3, p4, a, b, h);
    forall j | j in done
      ensures if InResult(j) then ProductInResult(j, z, zr, zc, a, b, h) else ProductInBuffer(j, p1, p3, p4, a, b, h)
    {
      assert InResult(j) ==> old(ProductInResult(j, z, zr, zc, a, b, h));
      assert !InResult(j) ==> old(ProductInBuffer(j, p1, p3, p4, a, b, h));
    }
  }

  /** One of the four tasks whose products lie in the result. */
  method RunInResult(k: int, h: nat, x: array2<real>, xr: nat, xc: nat, y: array2<real>, yr: nat, yc: nat,
                     z: array2<real>, zr: nat, zc: nat,
                p1: array2<real>, p3: array2<real>, p4: array2<real>, ghost a: Quarters, ghost b: Quarters,
                ghost done: set<int>)
    requires Halves(h) && Fits(a, h) && Fits(b, h) && HoldFour(x, xr, xc, a, h, false)
             && HoldFour(y, yr, yc, b, h, true)
    requires zr + 2 * h <= z.Length0 && zc + 2 * h <= z.Length1 && z != x && z != y && z !in {p1, p3, p4}
    requires InResult(k) && k !in done && done <= {1, 2, 3, 4, 5, 6, 7}
             && ProductsIn(done, z, zr, zc, p1, p3, p4, a, b, h)
    modifies z
    ensures ProductsIn(done + {k}, z, zr, zc, p1, p3, p4, a, b, h)
    ensures forall i, j | 0 <= i < z.Length0 && 0 <= j < z.Length1 && Outside(i, j, zr, zc, 2 * h, 2 * h) ::
              z[i, j] == old(z[i, j])
    decreases h, 5
  {
    hide ProductOf, Halves, HoldFour;
    QuarterTask(k, h, x, xr, xc, y, yr, yc, z, zr, zc, a, b);
    forall j | j in done
      ensures if InResult(j) then ProductInResult(j, z, zr, zc, a, b, h) else ProductInBuffer(j, p1, p3, p4, a, b, h)
    {
      assert InResult(j) ==> old(ProductInResult(j, z, zr, zc, a, b, h));
      assert !InResult(j) ==> old(ProductInBuffer(j, p1, p3, p4, a, b, h));
    }
  }

  /** It changes its own quarter only. */
  method QuarterTask(k: int, h: nat, x: array2<real>, xr: nat, xc: nat, y: array2<real>, yr: nat, yc: nat,
                     z: array2<real>, zr: nat, zc: nat, ghost a: Quarters, ghost b: Quarters)
    requires Halves(h) && Fits(a, h) && Fits(b, h) && HoldFour(x, xr, xc, a, h, false)
             && HoldFour(y, yr, yc, b, h, true)
    requires zr + 2 * h <= z.Length0 && zc + 2 * h <= z.Length1 && z != x && z != y && InResult(k)
    modifies z
    ensures ProductInResult(k, z, zr, zc, a, b, h)
    ensures forall i, j | 0 <= i < z.Length0 && 0 <= j < z.Length1
            && Outside(i, j, zr + QuarterRow(k, h), zc + QuarterColumn(k, h), h, h) :: z[i, j] == old(z[i, j])
    decreases h, 4
  {
    hide Holds, LeftSum, DifferenceSum, P1, RightDifference, Halves, Outside;
    if k == 2 {
      HelperP2P5(h, x, xr + h, xc, xr + h, xc + h, y, yr, yc, z, zr + h, zc, a.m21, a.m22, b.m11);
    } else if k == 5 {
      HelperP2P5(h, x, xr, xc, xr, xc + h, y, yr + h, yc + h, z, zr, zc + h, a.m11, a.m12, b.m22);
    } else if k == 6 {
      HelperP6P7(h, x, xr + h, xc, xr, xc, y, yr, yc, yr + h, yc, z, zr + h, zc + h, a.m21, a.m11, b.m11, b.m12);
    } else {
      HelperP6P7(h, x, xr, xc + h, xr + h, xc + h, y, yr, yc + h, yr + h, yc + h, z, zr, zc, a.m12, a.m22, b.m21,
                 b.m22);
    }
  }

  /** The combining steps after the taskwait.  C11 and C22 come first: they still need P5 and P2. */
  method Assemble(h: nat, z: array2<real>, zr: nat, zc: nat, p1: array2<real>, p3: array2<real>, p4: array2<real>,
                  ghost a: Quarters, ghost b: Quarters)
    requires Fits(a, h) && Fits(b, h) && ProductsIn({1, 2, 3, 4, 5, 6, 7}, z, zr, zc, p1, p3, p4, a, b, h)
             && z !in {p1, p3, p4}
    requires zr + 2 * h <= z.Length0 && zc + 2 * h <= z.Length1
    modifies z
    ensures HoldFour(z, zr, zc, Quarters(Result11(a, b, h), Result12(a, b, h), Result21(a, b, h), Result22(a, b, h)), h,
                     false)
    ensures forall i, j | 0 <= i < z.Length0 && 0 <= j < z.Length1 && Outside(i, j, zr, zc, 2 * h, 2 * h) ::
              z[i, j] == old(z[i, j])
  {
    hide P1, LeftSum, RightDifference, DifferenceSum, Corner, AddM, Holds;
    assert forall k | k in {2, 5, 6, 7} :: ProductInResult(k, z, zr, zc, a, b, h);
    assert forall k | k in {1, 3, 4} :: ProductInBuffer(k, p1, p3, p4, a, b, h);
    ghost var q1, q3, q4 := P1(a.m11, a.m22, b.m11, b.m22, h), RightDifference(a.m11, b.m12, b.m22, h),
                            RightDifference(a.m22, b.m21, b.m11, h);
    ghost var q2, q5 := LeftSum(a.m21, a.m22, b.m11, h), LeftSum(a.m11, a.m12, b.m22, h);
    AssembleCorners(h, z, zr, zc, p1, p3, p4, DifferenceSum(a.m12, a.m22, b.m21, b.m22, h),
                    DifferenceSum(a.m21, a.m11, b.m11, b.m12, h), q1, q2, q3, q4, q5);
    AssembleSides(h, z, zr, zc, p3, p4, Result11(a, b, h), Result22(a, b, h), q2, q3, q4, q5);
  }

  method AssembleCorners(h: nat, z: array2<real>, zr: nat, zc: nat, p1: array2<real>, p3: array2<real>,
                         p4: array2<real>,
                ghost q7: Mat, ghost q6: Mat, ghost q1: Mat, ghost q2: Mat, ghost q3: Mat, ghost q4: Mat, ghost q5: Mat)
    requires Holds(z, zr, zc, q7, h, h) && Holds(z, zr + h, zc + h, q6, h, h) && Holds(z, zr + h, zc, q2, h, h)
             && Holds(z, zr, zc + h, q5, h, h)
    requires Holds(p1, 0, 0, q1, h, h) && Holds(p3, 0, 0, q3, h, h) && Holds(p4, 0, 0, q4, h, h) && z !in {p1, p3, p4}
    modifies z
    ensures Holds(z, zr, zc, Corner(q7, q1, q4, q5, h), h, h)
            && Holds(z, zr + h, zc + h, Corner(q6, q1, q3, q2, h), h, h)
    ensures Holds(z, zr + h, zc, q2, h, h) && Holds(z, zr, zc + h, q5, h, h)
    ensures forall i, j | 0 <= i < z.Length0 && 0 <= j < z.Length1 && Outside(i, j, zr, zc, 2 * h, 2 * h) ::
              z[i, j] == old(z[i, j])
  {
    hide Corner;
    CombineCorner(h, z, zr, zc, p1, p4, zr, zc + h, z, q7, q1, q4, q5);
    CombineCorner(h, z, zr + h, zc + h, p1, p3, zr + h, zc, z, q6, q1, q3, q2);
  }

  method AssembleSides(h: nat, z: array2<real>, zr: nat, zc: nat, p3: array2<real>, p4: array2<real>,
                       ghost c11: Mat, ghost c22: Mat, ghost q2: Mat, ghost q3: Mat, ghost q4: Mat, ghost q5: Mat)
    requires Holds(z, zr, zc, c11, h, h) && Holds(z, zr + h, zc + h, c22, h, h) && Holds(z, zr + h, zc, q2, h, h)
             && Holds(z, zr, zc + h, q5, h, h)
    requires Holds(p3, 0, 0, q3, h, h) && Holds(p4, 0, 0, q4, h, h) && z !in {p3, p4}
    modifies z
    ensures HoldFour(z, zr, zc, Quarters(c11, AddM(q5, q3, h, h), AddM(q2, q4, h, h), c22), h, false)
    ensures forall i, j | 0 <= i < z.Length0 && 0 <= j < z.Length1 && Outside(i, j, zr, zc, 2 * h, 2 * h) ::
              z[i, j] == old(z[i, j])
  {
    hide AddM;
    AddR(z, zr, zc + h, p3, 0, 0, z, zr, zc + h, h, h, q5, q3);
    AddR(z, zr + h, zc, p4, 0, 0, z, zr + h, zc, h, h, q2, q4);
  }

  /** matmul_strassen for even sizes: P2, P5, P6 and P7 are computed in the quarters of C that they
      end up in, P1, P3 and P4 in buffers; then the quarters are combined, C11 and C22 first. */
  method StrassenStep(n: nat, x: array2<real>, xr: nat, xc: nat, y: array2<real>, yr: nat, yc: nat, z: array2<real>,
                      zr: nat, zc: nat, ghost a: Mat, ghost b: Mat)
    requires Halves(n) && n * n > MIN_STRASSEN
    requires Holds(x, xr, xc, a, n, n) && Holds(y, yr, yc, b, n, n) && zr + n <= z.Length0 && zc + n <= z.Length1
             && z != x && z != y
    modifies z
    ensures Holds(z, zr, zc, MulT(a, b, n), n, n)
    ensures forall i, j | 0 <= i < z.Length0 && 0 <= j < z.Length1 && Outside(i, j, zr, zc, n, n) ::
              z[i, j] == old(z[i, j])
    decreases n, 1
  {
    hide Holds, HoldFour, Result11, Result12, Result21, Result22, QuartersOf, TransposedQuarters, MulT, ProductsIn;
    var h := n / 2;
    SizeOf(x, xr, xc, a, n, n);
    SizeOf(y, yr, yc, b, n, n);
    HoldsQuarters(x, xr, xc, a, h);
    HoldsQuarters(y, yr, yc, b, h);
    ghost var qa, qb := QuartersOf(a, h), TransposedQuarters(b, h);
    var p1, p3, p4 := new real[h, h], new real[h, h], new real[h, h];
    SevenProducts(h, x, xr, xc, y, yr, yc, z, zr, zc, p1, p3, p4, qa, qb);
    Assemble(h, z, zr, zc, p1, p3, p4, qa, qb);
    StrassenIdentity(a, b, h);
    QuartersHold(z, zr, zc, MulT(a, b, n), h);
  }
}
