/** Complex numbers over the reals, their powers and finite sums. */
module ComplexNumbers {
  datatype Complex = Complex(re: real, im: real)

  const ZERO := Complex(0.0, 0.0)
  const ONE := Complex(1.0, 0.0)
  const MINUS_ONE := Complex(-1.0, 0.0)

  function Plus(a: Complex, b: Complex): Complex { Complex(a.re + b.re, a.im + b.im) }

  function Minus(a: Complex, b: Complex): Complex { Complex(a.re - b.re, a.im - b.im) }

  function Times(a: Complex, b: Complex): Complex {
    Complex(a.re * b.re - a.im * b.im, a.re * b.im + a.im * b.re)
  }

  function Conj(a: Complex): Complex { Complex(a.re, -a.im) }

  function Scale(r: real, a: Complex): Complex { Complex(r * a.re, r * a.im) }

  function Pow(a: Complex, n: nat): Complex {
    if n == 0 then ONE else Times(a, Pow(a, n - 1))
  }

  // ------------------------------------------------ the laws of a commutative ring

  lemma TimesComm(a: Complex, b: Complex)
    ensures Times(a, b) == Times(b, a)
  {
  }

  lemma TimesOne(a: Complex)
    ensures Times(ONE, a) == a && Times(a, ONE) == a
    ensures Times(ZERO, a) == ZERO && Times(a, ZERO) == ZERO
    ensures Times(MINUS_ONE, a) == Minus(ZERO, a) && Times(MINUS_ONE, MINUS_ONE) == ONE
  {
  }

  lemma RealProducts(x: real, y: real, z: real)
    ensures (x * y) * z == x * (y * z)
  {
  }

  lemma RealSums(x: real, y: real, z: real)
    ensures (x + y) * z == x * z + y * z && z * (x + y) == z * x + z * y
    ensures (x - y) * z == x * z - y * z && z * (x - y) == z * x - z * y
  {
  }

  lemma TimesAssoc(a: Complex, b: Complex, c: Complex)
    ensures Times(Times(a, b), c) == Times(a, Times(b, c))
  {
    RealSums(a.re * b.re, a.im * b.im, c.re);
    RealSums(a.re * b.im, a.im * b.re, c.im);
    RealSums(a.re * b.re, a.im * b.im, c.im);
    RealSums(a.re * b.im, a.im * b.re, c.re);
    RealSums(b.re * c.re, b.im * c.im, a.re);
    RealSums(b.re * c.im, b.im * c.re, a.im);
    RealSums(b.re * c.im, b.im * c.re, a.re);
    RealSums(b.re * c.re, b.im * c.im, a.im);
    RealProducts(a.re, b.re, c.re);
    RealProducts(a.im, b.im, c.re);
    RealProducts(a.re, b.im, c.im);
    RealProducts(a.im, b.re, c.im);
    RealProducts(a.re, b.re, c.im);
    RealProducts(a.im, b.im, c.im);
    RealProducts(a.re, b.im, c.re);
    RealProducts(a.im, b.re, c.re);
  }

  lemma TimesPlus(a: Complex, b: Complex, c: Complex)
    ensures Times(a, Plus(b, c)) == Plus(Times(a, b), Times(a, c))
    ensures Times(Plus(b, c), a) == Plus(Times(b, a), Times(c, a))
  {
    RealSums(b.re, c.re, a.re);
    RealSums(b.im, c.im, a.im);
    RealSums(b.re, c.re, a.im);
    RealSums(b.im, c.im, a.re);
  }

  /** (a b)(c d) == (a c)(b d). */
  lemma TimesSwap(a: Complex, b: Complex, c: Complex, d: Complex)
    ensures Times(Times(a, b), Times(c, d)) == Times(Times(a, c), Times(b, d))
  {
    hide Times;
    TimesAssoc(a, b, Times(c, d));
    TimesAssoc(b, c, d);
    TimesComm(b, c);
    TimesAssoc(c, b, d);
    TimesAssoc(a, c, Times(b, d));
  }

  lemma ConjTimes(a: Complex, b: Complex)
    ensures Conj(Times(a, b)) == Times(Conj(a), Conj(b)) && Conj(Conj(a)) == a
  {
  }

  const I := Complex(0.0, 1.0)

  /** The square of the absolute value. */
  function Norm(a: Complex): real { a.re * a.re + a.im * a.im }

  /** What makes the numbers complex: i squared is -1, every number is x + i y, and the absolute value
      of a product is the product of the absolute values. */
  lemma ComplexLaws(a: Complex, b: Complex)
    ensures Times(I, I) == MINUS_ONE
    ensures a == Plus(Complex(a.re, 0.0), Times(I, Complex(a.im, 0.0)))
    ensures Times(a, Conj(a)) == Complex(Norm(a), 0.0)
    ensures Norm(Times(a, b)) == Norm(a) * Norm(b)
  {
    hide Times, Norm;
    NormIs(a);
    NormIs(b);
    NormIs(Times(a, b));
    ConjTimes(a, b);
    TimesSwap(a, b, Conj(a), Conj(b));
    RealPart(Norm(a), Norm(b));
    UnitLaws(a);
  }

  lemma NormIs(a: Complex)
    ensures Times(a, Conj(a)) == Complex(Norm(a), 0.0)
  {
  }

  lemma RealPart(x: real, y: real)
    ensures Times(Complex(x, 0.0), Complex(y, 0.0)) == Complex(x * y, 0.0)
  {
  }

  lemma UnitLaws(a: Complex)
    ensures Times(I, I) == MINUS_ONE
    ensures a == Plus(Complex(a.re, 0.0), Times(I, Complex(a.im, 0.0)))
  {
  }

  // ------------------------------------------------ powers

  lemma {:induction false} PowAdd(a: Complex, m: nat, n: nat)
    ensures Pow(a, m + n) == Times(Pow(a, m), Pow(a, n))
  {
    hide Times;
    if m == 0 {
      TimesOne(Pow(a, n));
    } else {
      PowAdd(a, m - 1, n);
      TimesAssoc(a, Pow(a, m - 1), Pow(a, n));
    }
  }

  lemma {:induction false} PowMul(a: Complex, m: nat, n: nat)
    ensures m * n >= 0 && Pow(Pow(a, m), n) == Pow(a, m * n)
  {
    hide Times;
    if n == 0 {
      assert m * n == 0;
    } else {
      PowMul(a, m, n - 1);
      assert m * n == m + m * (n - 1);
      PowAdd(a, m, m * (n - 1));
    }
  }

  lemma {:induction false} PowTimes(a: Complex, b: Complex, n: nat)
    ensures Pow(Times(a, b), n) == Times(Pow(a, n), Pow(b, n))
  {
    hide Times;
    if n == 0 {
      TimesOne(ONE);
    } else {
      PowTimes(a, b, n - 1);
      TimesSwap(a, b, Pow(a, n - 1), Pow(b, n - 1));
    }
  }

  lemma {:induction false} PowOne(n: nat)
    ensures Pow(ONE, n) == ONE
  {
    hide Times;
    if n > 0 {
      PowOne(n - 1);
      TimesOne(ONE);
    }
  }

  lemma PowSmall(a: Complex)
    ensures Pow(a, 0) == ONE && Pow(a, 1) == a && Pow(a, 2) == Times(a, a)
  {
    hide Times;
    TimesOne(a);
    assert Pow(a, 1) == Times(a, Pow(a, 0));
    assert Pow(a, 2) == Times(a, Pow(a, 1));
  }

  lemma {:induction false} PowConj(a: Complex, n: nat)
    ensures Pow(Conj(a), n) == Conj(Pow(a, n))
  {
    hide Times;
    if n > 0 {
      PowConj(a, n - 1);
      ConjTimes(a, Pow(a, n - 1));
    }
  }

  // ------------------------------------------------ sums

  function Sum(f: nat -> Complex, n: nat): Complex {
    if n == 0 then ZERO else Plus(Sum(f, n - 1), f(n - 1))
  }

  lemma {:induction false} SumSame(f: nat -> Complex, h: nat -> Complex, n: nat)
    requires forall k | 0 <= k < n :: h(k) == f(k)
    ensures Sum(h, n) == Sum(f, n)
  {
    if n > 0 { SumSame(f, h, n - 1); }
  }
}
