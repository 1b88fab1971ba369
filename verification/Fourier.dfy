/** The discrete Fourier transform as a sum, how it splits in two, and its inverse. */
module Fourier {
  import opened ComplexNumbers
  import opened BitReversal

  /** g[0] + g[1] x + g[2] x^2 + ... */
  function Eval(g: seq<Complex>, x: Complex): Complex {
    if g == [] then ZERO else Plus(g[0], Times(x, Eval(g[1..], x)))
  }

  /** Element k of the transform of g with root v: the sum over m of g[m] v^(m k). */
  function Dft(g: seq<Complex>, v: Complex, k: nat): Complex {
    Eval(g, Pow(v, k))
  }

  function DftSeq(g: seq<Complex>, v: Complex): (t: seq<Complex>)
    ensures |t| == |g|
  {
    seq(|g|, k requires 0 <= k < |g| => Dft(g, v, k))
  }

  /** v is a root of unity of order 2^p: its power to half the order is -1. */
  predicate Root(v: Complex, p: nat) {
    p > 0 ==> Pow(v, Exp2(p - 1)) == MINUS_ONE
  }

  // ------------------------------------------------ sums, term by term

  lemma {:induction false} EvalSnoc(g: seq<Complex>, a: Complex, x: Complex)
    ensures Eval(g + [a], x) == Plus(Eval(g, x), Times(a, Pow(x, |g|)))
  {
    hide Times;
    if g == [] {
      assert g + [a] == [a];
      assert [a][1..] == [];
      TimesOne(x);
      TimesOne(a);
    } else {
      EvalSnoc(g[1..], a, x);
      assert (g + [a])[1..] == g[1..] + [a];
      TimesPlus(x, Eval(g[1..], x), Times(a, Pow(x, |g| - 1)));
      TimesAssoc(x, a, Pow(x, |g| - 1));
      TimesComm(x, a);
      TimesAssoc(a, x, Pow(x, |g| - 1));
    }
  }

  /** The transform is the sum that the documentation of cfft2rmxy gives. */
  lemma {:induction false} DftIsSum(g: seq<Complex>, v: Complex, k: nat, n: nat)
    requires n <= |g|
    ensures Dft(g[..n], v, k) == Sum((m: nat) => if m < |g| then Times(g[m], Pow(v, Product(m, k))) else ZERO, n)
  {
    hide Times;
    var term := (m: nat) => if m < |g| then Times(g[m], Pow(v, Product(m, k))) else ZERO;
    if n > 0 {
      DftIsSum(g, v, k, n - 1);
      assert g[..n] == g[..n - 1] + [g[n - 1]];
      EvalSnoc(g[..n - 1], g[n - 1], Pow(v, k));
      PowMul(v, k, n - 1);
      assert Product(n - 1, k) == k * (n - 1);
      SumSame((m: nat) => if m < |g| then Times(g[m], Pow(v, Product(m, k))) else ZERO, term, n - 1);
    }
    SumSame(term, (m: nat) => if m < |g| then Times(g[m], Pow(v, Product(m, k))) else ZERO, n);
  }

  function Product(m: nat, k: nat): nat { m * k }

  // ------------------------------------------------ even and odd halves

  function Evens<T>(g: seq<T>): (e: seq<T>)
    ensures |e| == (|g| + 1) / 2
    ensures forall m | 0 <= m < |e| :: e[m] == g[2 * m]
    decreases |g|
  {
    if g == [] then [] else [g[0]] + Odds(g[1..])
  }

  function Odds<T>(g: seq<T>): (o: seq<T>)
    ensures |o| == |g| / 2
    ensures forall m | 0 <= m < |o| :: o[m] == g[2 * m + 1]
    decreases |g|
  {
    if g == [] then [] else Evens(g[1..])
  }

  lemma {:induction false} EvalSplit(g: seq<Complex>, x: Complex)
    ensures Eval(g, x) == Plus(Eval(Evens(g), Times(x, x)), Times(x, Eval(Odds(g), Times(x, x))))
    decreases |g|
  {
    hide Times;
    if g == [] {
      TimesOne(x);
    } else {
      var xx, t := Times(x, x), g[1..];
      EvalSplit(t, x);
      assert Evens(g)[1..] == Odds(t);
      TimesPlus(x, Eval(Evens(t), xx), Times(x, Eval(Odds(t), xx)));
      TimesAssoc(x, x, Eval(Odds(t), xx));
    }
  }

  /** One butterfly: the two halves of the transform of g from those of its even and its odd
      elements. */
  lemma Butterfly(g: seq<Complex>, v: Complex, n: nat, j: nat)
    requires Pow(v, n) == MINUS_ONE
    ensures var e, o := Dft(Evens(g), Times(v, v), j), Dft(Odds(g), Times(v, v), j);
            && Dft(g, v, j) == Plus(e, Times(Pow(v, j), o))
            && Dft(g, v, j + n) == Minus(e, Times(Pow(v, j), o))
  {
    hide Times, Eval;
    var x := Pow(v, j);
    EvalSplit(g, x);
    PowTimes(v, v, j);
    PowAdd(v, j, n);
    var y := Pow(v, j + n);
    EvalSplit(g, y);
    TimesComm(x, MINUS_ONE);
    MinusSquares(x);
    MinusTimes(x, Eval(Odds(g), Times(x, x)));
  }

  lemma MinusSquares(x: Complex)
    ensures Times(MINUS_ONE, x) == Minus(ZERO, x) && Times(Minus(ZERO, x), Minus(ZERO, x)) == Times(x, x)
  {
  }

  lemma MinusTimes(x: Complex, a: Complex)
    ensures Times(Minus(ZERO, x), a) == Minus(ZERO, Times(x, a))
  {
  }

  // ------------------------------------------------ geometric sums

  function Geo(u: Complex, n: nat): Complex {
    if n == 0 then ZERO else Plus(Geo(u, n - 1), Pow(u, n - 1))
  }

  lemma {:induction false} GeoAdd(u: Complex, m: nat, n: nat)
    ensures Geo(u, m + n) == Plus(Geo(u, m), Times(Pow(u, m), Geo(u, n)))
  {
    hide Times;
    if n == 0 {
      TimesOne(Pow(u, m));
    } else {
      GeoAdd(u, m, n - 1);
      PowAdd(u, m, n - 1);
      TimesPlus(Pow(u, m), Geo(u, n - 1), Pow(u, n - 1));
    }
  }

  lemma {:induction false} GeoOfOne(n: nat)
    ensures Geo(ONE, n) == Complex(n as real, 0.0)
  {
    hide Times, Pow;
    if n > 0 {
      GeoOfOne(n - 1);
      PowOne(n - 1);
    }
  }

  lemma {:induction false} PowOfSign(x: Complex, d: nat)
    requires Times(x, x) == ONE
    ensures Pow(x, d) == if d % 2 == 0 then ONE else x
  {
    hide Times;
    if d > 0 {
      PowOfSign(x, d - 1);
      TimesOne(x);
    }
  }

  /** The powers of a root sum to zero, whatever the step d through them. */
  lemma {:induction false} GeoVanishes(v: Complex, p: nat, d: nat)
    requires Root(v, p) && 0 < d < Exp2(p)
    ensures Geo(Pow(v, d), Exp2(p)) == ZERO
    decreases p
  {
    hide Times, Geo;
    var n, u := Exp2(p - 1), Pow(v, d);
    GeoAdd(u, n, n);
    PowSwap(v, d, n);
    TimesOne(MINUS_ONE);
    PowOfSign(MINUS_ONE, d);
    var s := Geo(u, n);
    if d % 2 == 1 {
      TimesOne(s);
    } else {
      var h := d / 2;
      HalfRoot(v, p);
      PowMul(v, 2, h);
      PowSmall(v);
      GeoVanishes(Times(v, v), p - 1, h);
      TimesOne(s);
    }
  }

  lemma PowSwap(v: Complex, d: nat, n: nat)
    ensures Pow(Pow(v, d), n) == Pow(Pow(v, n), d)
  {
    PowMul(v, d, n);
    PowMul(v, n, d);
    assert d * n == n * d;
  }

  lemma HalfRoot(v: Complex, p: nat)
    requires p > 0 && Root(v, p)
    ensures Root(Times(v, v), p - 1)
  {
    hide Times;
    if p > 1 {
      PowMul(v, 2, Exp2(p - 2));
      PowSmall(v);
    }
  }

  lemma CancelPowers(v: Complex, c: Complex, m: nat, d: nat)
    requires Times(v, c) == ONE
    ensures Times(Pow(v, m + d), Pow(c, m)) == Pow(v, d) && Times(Pow(v, m), Pow(c, m + d)) == Pow(c, d)
  {
    hide Times, Pow;
    PowTimes(v, c, m);
    PowOne(m);
    PowAdd(v, d, m);
    TimesAssoc(Pow(v, d), Pow(v, m), Pow(c, m));
    TimesOne(Pow(v, d));
    PowAdd(c, m, d);
    TimesAssoc(Pow(v, m), Pow(c, m), Pow(c, d));
    TimesOne(Pow(c, d));
  }

  /** For c the inverse of v, the powers of v^m c^n sum to the order if m == n and to 0 if not. */
  lemma Orthogonal(v: Complex, c: Complex, p: nat, m: nat, n: nat)
    requires Root(v, p) && Root(c, p) && Times(v, c) == ONE && m < Exp2(p) && n < Exp2(p)
    ensures Geo(Times(Pow(v, m), Pow(c, n)), Exp2(p)) == if m == n then Complex(Exp2(p) as real, 0.0) else ZERO
  {
    hide Times, Geo, Pow, Exp2, Root;
    if m == n {
      CancelPowers(v, c, m, 0);
      PowSmall(v);
      GeoOfOne(Exp2(p));
    } else if m > n {
      CancelPowers(v, c, n, m - n);
      GeoVanishes(v, p, m - n);
    } else {
      CancelPowers(v, c, m, n - m);
      GeoVanishes(c, p, n - m);
    }
  }

  // ------------------------------------------------ the transform and its inverse

  lemma {:induction false} EvalPlus(a: seq<Complex>, b: seq<Complex>, c: seq<Complex>, x: Complex)
    requires |a| == |b| == |c| && forall k | 0 <= k < |a| :: c[k] == Plus(a[k], b[k])
    ensures Eval(c, x) == Plus(Eval(a, x), Eval(b, x))
  {
    hide Times;
    if a != [] {
      EvalPlus(a[1..], b[1..], c[1..], x);
      TimesPlus(x, Eval(a[1..], x), Eval(b[1..], x));
    }
  }

  lemma {:induction false} EvalTimes(r: Complex, a: seq<Complex>, c: seq<Complex>, x: Complex)
    requires |a| == |c| && forall k | 0 <= k < |a| :: c[k] == Times(r, a[k])
    ensures Eval(c, x) == Times(r, Eval(a, x))
  {
    hide Times;
    if a == [] {
      TimesOne(r);
    } else {
      EvalTimes(r, a[1..], c[1..], x);
      TimesPlus(r, a[0], Times(x, Eval(a[1..], x)));
      TimesAssoc(r, x, Eval(a[1..], x));
      TimesComm(r, x);
      TimesAssoc(x, r, Eval(a[1..], x));
    }
  }

  /** Powers of u as a sequence. */
  function Powers(u: Complex, n: nat): (s: seq<Complex>)
    ensures |s| == n
  {
    seq(n, k requires 0 <= k < n => Pow(u, k))
  }

  lemma {:induction false} EvalPowers(u: Complex, y: Complex, n: nat)
    ensures Eval(Powers(u, n), y) == Geo(Times(u, y), n)
  {
    hide Times;
    if n > 0 {
      EvalPowers(u, y, n - 1);
      assert Powers(u, n) == Powers(u, n - 1) + [Pow(u, n - 1)];
      EvalSnoc(Powers(u, n - 1), Pow(u, n - 1), y);
      PowTimes(u, y, n - 1);
    }
  }

  /** The values of the polynomial g at the first n powers of v. */
  function Values(g: seq<Complex>, v: Complex, n: nat): (s: seq<Complex>)
    ensures |s| == n
  {
    seq(n, k requires 0 <= k < n => Dft(g, v, k))
  }

  lemma {:induction false} EvalZero(g: seq<Complex>, x: Complex)
    requires forall k | 0 <= k < |g| :: g[k] == ZERO
    ensures Eval(g, x) == ZERO
  {
    hide Times;
    if g != [] {
      EvalZero(g[1..], x);
      TimesOne(x);
    }
  }

  /** One more coefficient of g adds its share to the transform back. */
  lemma BackSnoc(g: seq<Complex>, a: Complex, v: Complex, n: nat, y: Complex)
    ensures Eval(Values(g + [a], v, n), y) == Plus(Eval(Values(g, v, n), y), Times(a, Geo(Times(Pow(v, |g|), y), n)))
  {
    hide Times, Eval, Geo;
    var u := Pow(v, |g|);
    var share := seq(n, k requires 0 <= k < n => Times(a, Pow(u, k)));
    forall k | 0 <= k < n ensures Values(g + [a], v, n)[k] == Plus(Values(g, v, n)[k], share[k]) {
      EvalSnoc(g, a, Pow(v, k));
      PowSwap(v, k, |g|);
    }
    EvalPlus(Values(g, v, n), share, Values(g + [a], v, n), y);
    EvalTimes(a, Powers(u, n), share, y);
    EvalPowers(u, y, n);
  }

  lemma {:induction false} BackPrefix(g: seq<Complex>, v: Complex, c: Complex, p: nat, n: nat, m: nat)
    requires Root(v, p) && Root(c, p) && Times(v, c) == ONE && |g| == Exp2(p) && n < |g| && m <= |g|
    ensures Eval(Values(g[..m], v, Exp2(p)), Pow(c, n)) == if n < m then Scale(Exp2(p) as real, g[n]) else ZERO
  {
    hide Times, Eval, Geo, Pow;
    if m == 0 {
      EmptyValues(v, Exp2(p), Pow(c, n));
    } else {
      BackPrefix(g, v, c, p, n, m - 1);
      assert g[..m] == g[..m - 1] + [g[m - 1]];
      BackSnoc(g[..m - 1], g[m - 1], v, Exp2(p), Pow(c, n));
      Orthogonal(v, c, p, m - 1, n);
      TimesReal(g[m - 1], Exp2(p) as real);
    }
  }

  lemma EmptyValues(v: Complex, n: nat, y: Complex)
    ensures Eval(Values([], v, n), y) == ZERO
  {
    hide Times;
    EvalZero(Values([], v, n), y);
  }

  lemma TimesReal(a: Complex, r: real)
    ensures Times(a, Complex(r, 0.0)) == Scale(r, a) && Times(a, ZERO) == ZERO
  {
  }

  /** Main result: transforming with v and then with its inverse multiplies by the order. */
  lemma InverseTransform(g: seq<Complex>, v: Complex, c: Complex, p: nat)
    requires Root(v, p) && Root(c, p) && Times(v, c) == ONE && |g| == Exp2(p)
    ensures DftSeq(DftSeq(g, v), c) == seq(|g|, n requires 0 <= n < |g| => Scale(Exp2(p) as real, g[n]))
  {
    hide Times, Eval, Pow;
    assert g[..|g|] == g;
    assert DftSeq(g, v) == Values(g, v, Exp2(p));
    forall n | 0 <= n < |g| ensures DftSeq(DftSeq(g, v), c)[n] == Scale(Exp2(p) as real, g[n]) {
      BackPrefix(g, v, c, p, n, |g|);
    }
  }
}
