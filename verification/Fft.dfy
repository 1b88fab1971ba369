/** cfft2rmxy: the transform of the columns of f in place.  f[k, i] is the element the source
    keeps at f[i + nxhd * k]. */
module Fft {
  import opened ComplexNumbers
  import opened BitReversal
  import opened Fourier
  import opened Blocks

  /** Column i of f, its first ny rows. */
  function Column(f: array2<Complex>, i: nat, ny: nat): (c: seq<Complex>)
    requires i < f.Length1 && ny <= f.Length0
    reads f
    ensures |c| == ny && forall k | 0 <= k < ny :: c[k] == f[k, i]
  {
    seq(ny, k requires 0 <= k < ny reads f => f[k, i])
  }

  // ------------------------------------------------ the tables

  /** The tables that cwfft2rinit leaves, for a root w of order nxy. */
  ghost predicate Tables(mixup: seq<int>, sct: seq<Complex>, w: Complex, indx: nat, indy: nat) {
    var bits: nat, p: nat := Max(indx - 1, indy), Max(indx, indy);
    && |mixup| >= Exp2(bits) && (forall j: nat | j < Exp2(bits) :: mixup[j] == 1 + Rev(j, bits))
    && |sct| >= Exp2(p) / 2 && (forall j: nat | j < Exp2(p) / 2 :: sct[j] == Pow(w, j))
    && Root(w, p) && Times(w, Conj(w)) == ONE
  }

  /** cwfft2rinit; unit(j) stands for cosf(arg) - sinf(arg) i with arg = 2 pi j / nxy. */
  method InitTables(mixup: array<int>, sct: array<Complex>, indx: nat, indy: nat, unit: nat -> Complex,
                    ghost w: Complex)
    requires mixup.Length >= Exp2(Max(indx - 1, indy)) && sct.Length >= Exp2(Max(indx, indy)) / 2
    requires forall j: nat | j < Exp2(Max(indx, indy)) / 2 :: unit(j) == Pow(w, j)
    requires Root(w, Max(indx, indy)) && Times(w, Conj(w)) == ONE
    modifies mixup, sct
    ensures Tables(mixup[..], sct[..], w, indx, indy)
  {
    hide Exp2, Pow, Times, Root, Rev;
    var indx1 := indx - 1;
    var indx1y := if indx1 > indy then indx1 else indy;
    var nx, ny := Exp2(indx), Exp2(indy);
    var nxy := if nx > ny then nx else ny;
    if indx <= indy { ExpMonotone(indx, indy); } else { ExpMonotone(indy, indx); }
    FillMixup(mixup, indx1y);
    ghost var table := mixup[..];
    var nxyh := nxy / 2;
    for j := 0 to nxyh
      invariant forall i: nat | i < j :: sct[i] == unit(i)
      invariant mixup[..] == table
    {
      sct[j] := unit(j);
    }
  }

  // ------------------------------------------------ bit reversal of one column

  method ReverseColumn(f: array2<Complex>, i: nat, mixup: seq<int>, bits: nat, indy: nat)
    requires i < f.Length1 && Exp2(indy) <= f.Length0 && indy <= bits
    requires |mixup| >= Exp2(bits) && forall j: nat | j < Exp2(bits) :: mixup[j] == 1 + Rev(j, bits)
    modifies f
    ensures Column(f, i, Exp2(indy)) == Reversed(old(Column(f, i, Exp2(indy))), indy)
    ensures forall r, c | 0 <= r < f.Length0 && 0 <= c < f.Length1 && (c != i || r >= Exp2(indy)) ::
              f[r, c] == old(f[r, c])
  {
    hide Rev, Exp2;
    var nxhy, ny := Exp2(bits), Exp2(indy);
    var nryb := nxhy / ny;
    ExpAdd(bits - indy, indy);
    ExpMonotone(indy, bits);
    ghost var u := Column(f, i, ny);
    ExchangedNone(u, indy);
    for k := 0 to ny
      invariant ExchangedBelow(u, Column(f, i, ny), indy, k)
      invariant forall r, c | 0 <= r < f.Length0 && 0 <= c < f.Length1 && (c != i || r >= ny) :: f[r, c] == old(f[r, c])
    {
      ghost var v := Column(f, i, ny);
      var k1 := (mixup[k] - 1) / nryb;
      RevShorter(k, indy, bits - indy);
      RevBounded(k, indy);
      if k < k1 {
        f[k1, i], f[k, i] := f[k, i], f[k1, i];
      }
      ghost var v' := Column(f, i, ny);
      assert v' == if k < k1 then v[k := v[k1]][k1 := v[k]] else v;
      ExchangeNext(u, v, v', indy, k, k1);
    }
    ExchangedAll(u, Column(f, i, ny), indy);
  }

  // ------------------------------------------------ what the stages keep

  /** The part of g whose transform block k of a stage holds; d stages are still to come. */
  function Sub<T>(g: seq<T>, d: nat, k: nat): seq<T> {
    if d == 0 then g
    else if k % 2 == 0 then Evens(Sub(g, d - 1, k / 2))
    else Odds(Sub(g, d - 1, k / 2))
  }

  lemma {:induction false} SubLength<T>(g: seq<T>, p: nat, d: nat, k: nat)
    requires |g| == Exp2(p) && d <= p
    ensures |Sub(g, d, k)| == Exp2(p - d)
  {
    hide Exp2, Evens, Odds;
    if d > 0 {
      var half := Sub(g, d - 1, k / 2);
      SubLength(g, p, d - 1, k / 2);
      DoubleExp(p - d);
      assert Sub(g, d, k) == if k % 2 == 0 then Evens(half) else Odds(half);
    }
  }

  function Offset(k: int, n: int): int { k * n }

  /** Block k consists of every 2^d-th element, starting at the reversal of k. */
  lemma {:induction false} SubAt<T>(g: seq<T>, p: nat, d: nat, k: nat, m: nat)
    requires |g| == Exp2(p) && d <= p && k < Exp2(d) && m < Exp2(p - d)
    ensures m < |Sub(g, d, k)| && 0 <= Rev(k, d) + Offset(m, Exp2(d)) < |g|
    ensures Sub(g, d, k)[m] == g[Rev(k, d) + Offset(m, Exp2(d))]
  {
    hide Exp2, Offset, Sub, Rev, Evens, Odds;
    SubLength(g, p, d, k);
    ExpZero();
    if d == 0 {
      OffsetOne(m);
      LastSub(g, k);
    } else {
      var b := k % 2;
      SubLength(g, p, d - 1, k / 2);
      DoubleExp(p - d);
      DoubleExp(d - 1);
      SubAt(g, p, d - 1, k / 2, 2 * m + b);
      OffsetHalf(m, b, Exp2(d - 1));
      SubStep(g, d, k, m);
    }
  }

  lemma LastSub<T>(g: seq<T>, k: nat)
    ensures Sub(g, 0, k) == g && Rev(k, 0) == 0
  {
  }

  lemma SubStep<T>(g: seq<T>, d: nat, k: nat, m: nat)
    requires d > 0 && m < |Sub(g, d, k)|
    ensures 2 * m + k % 2 < |Sub(g, d - 1, k / 2)| && Sub(g, d, k)[m] == Sub(g, d - 1, k / 2)[2 * m + k % 2]
    ensures Rev(k, d) == (if k % 2 == 1 then Exp2(d - 1) else 0) + Rev(k / 2, d - 1)
  {
    hide Exp2, Evens, Odds;
    var half, part := k / 2, Sub(g, d - 1, k / 2);
    assert Sub(g, d, k) == if k % 2 == 0 then Evens(part) else Odds(part);
  }

  lemma OffsetOne(m: nat)
    ensures Offset(m, 1) == m
  {
  }

  lemma OffsetHalf(m: nat, b: nat, n: nat)
    requires b <= 1
    ensures Offset(2 * m + b, n) == Offset(m, 2 * n) + if b == 1 then n else 0
  {
    Distribute(2 * m, b, n);
    Doubled(m, n);
    DoubledLeft(m, n);
  }

  lemma DoubledLeft(a: int, b: int)
    ensures (2 * a) * b == 2 * (a * b)
  {
  }

  /** From `base` on, col holds the transform of s with root x. */
  ghost predicate Holds(col: seq<Complex>, base: int, s: seq<Complex>, x: Complex) {
    forall j: nat | j < |s| :: 0 <= base + j < |col| && col[base + j] == Dft(s, x, j)
  }

  lemma HoldsKept(col: seq<Complex>, col': seq<Complex>, base: int, s: seq<Complex>, x: Complex)
    requires Holds(col, base, s, x) && |col| == |col'| && 0 <= base
    requires forall r | base <= r < base + |s| && r < |col| :: col'[r] == col[r]
    ensures Holds(col', base, s, x)
  {
    forall j: nat | j < |s| ensures 0 <= base + j < |col'| && col'[base + j] == Dft(s, x, j) {
      var value := Dft(s, x, j);
      assert 0 <= base + j < |col| && col[base + j] == value;
    }
  }

  /** The butterflies of one block of 2 * ns elements, as cfft2rmxy combines them. */
  ghost predicate Merged(col: seq<Complex>, col': seq<Complex>, base: nat, ns: nat, x: Complex) {
    && |col| == |col'| && base + 2 * ns <= |col|
    && forall j: nat | j < ns :: PairMerged(col, col', base, ns, x, j)
  }

  ghost predicate PairMerged(col: seq<Complex>, col': seq<Complex>, base: nat, ns: nat, x: Complex, j: nat)
    requires j < ns && base + 2 * ns <= |col| == |col'|
  {
    var j1, j2 := j + base, j + base + ns;
    && col'[j1] == Plus(col[j1], Times(Pow(x, j), col[j2]))
    && col'[j2] == Minus(col[j1], Times(Pow(x, j), col[j2]))
  }

  ghost predicate PairKept(col: seq<Complex>, col': seq<Complex>, base: nat, ns: nat, j: nat)
    requires j < ns && base + 2 * ns <= |col| == |col'|
  {
    var j1, j2 := j + base, j + base + ns;
    col'[j1] == col[j1] && col'[j2] == col[j2]
  }

  /** One butterfly leaves the finished and the waiting pairs alone. */
  lemma NextPair(col: seq<Complex>, mid: seq<Complex>, mid': seq<Complex>, base: nat, ns: nat, x: Complex, j: nat)
    requires j < ns && base + 2 * ns <= |col| == |mid| == |mid'|
    requires forall h: nat | h < j :: PairMerged(col, mid, base, ns, x, h)
    requires forall h: nat | j <= h < ns :: PairKept(col, mid, base, ns, h)
    requires var j1, j2, t := j + base, j + base + ns, Times(Pow(x, j), mid[j + base + ns]);
             mid' == mid[j2 := Minus(mid[j1], t)][j1 := Plus(mid[j1], t)]
    ensures forall h: nat | h < j + 1 :: PairMerged(col, mid', base, ns, x, h)
    ensures forall h: nat | j + 1 <= h < ns :: PairKept(col, mid', base, ns, h)
  {
    hide Times, Pow, Plus, Minus;
    assert PairKept(col, mid, base, ns, j);
    forall h: nat | h < j + 1 ensures PairMerged(col, mid', base, ns, x, h) {
      if h < j { assert PairMerged(col, mid, base, ns, x, h); }
    }
    forall h: nat | j + 1 <= h < ns ensures PairKept(col, mid', base, ns, h) {
      assert PairKept(col, mid, base, ns, h);
    }
  }

  lemma MergeHolds(col: seq<Complex>, col': seq<Complex>, base: nat, ns: nat, s: seq<Complex>, x: Complex)
    requires |s| == 2 * ns && Pow(x, ns) == MINUS_ONE && Merged(col, col', base, ns, x)
    requires Holds(col, base, Evens(s), Times(x, x)) && Holds(col, base + ns, Odds(s), Times(x, x))
    ensures Holds(col', base, s, x)
  {
    hide Times, Pow, Dft, Plus, Minus;
    forall j: nat | j < |s| ensures 0 <= base + j < |col'| && col'[base + j] == Dft(s, x, j) {
      var h := if j < ns then j else j - ns;
      Butterfly(s, x, ns, h);
      assert PairMerged(col, col', base, ns, x, h);
      assert col[base + h] == Dft(Evens(s), Times(x, x), h);
      assert col[base + ns + h] == Dft(Odds(s), Times(x, x), h);
      assert base + ns + h == (base + ns) + h;
    }
  }

  /** All blocks of a stage with d stages to come hold their transforms. */
  ghost predicate Level(col: seq<Complex>, g: seq<Complex>, v: Complex, d: nat, ns: nat) {
    forall k: nat | k < Exp2(d) :: Holds(col, Offset(k, ns), Sub(g, d, k), Pow(v, Exp2(d)))
  }

  lemma ReversedIsLevel(g: seq<Complex>, v: Complex, p: nat)
    requires |g| == Exp2(p)
    ensures Level(Reversed(g, p), g, v, p, 1)
  {
    hide Times, Pow, Rev, Exp2, Sub;
    forall k: nat | k < Exp2(p) ensures Holds(Reversed(g, p), Offset(k, 1), Sub(g, p, k), Pow(v, Exp2(p))) {
      var s := Sub(g, p, k);
      Singleton(g, p, k);
      DftOfOne(s, Pow(v, Exp2(p)));
    }
  }

  lemma Singleton<T>(g: seq<T>, p: nat, k: nat)
    requires |g| == Exp2(p) && k < Exp2(p)
    ensures |Sub(g, p, k)| == 1 && Rev(k, p) < |g| && Sub(g, p, k)[0] == g[Rev(k, p)] && Offset(k, 1) == k
  {
    SubAt(g, p, p, k, 0);
    SubLength(g, p, p, k);
    assert Offset(0, Exp2(p)) == 0;
  }

  lemma DftOfOne(s: seq<Complex>, x: Complex)
    requires |s| == 1
    ensures Dft(s, x, 0) == s[0]
  {
    hide Times, Pow;
    var y := Pow(x, 0);
    TimesOne(y);
    assert Eval(s[1..], y) == ZERO;
  }

  lemma LevelIsTransform(col: seq<Complex>, g: seq<Complex>, v: Complex, ns: nat)
    requires |col| == |g| && Level(col, g, v, 0, ns)
    ensures col == DftSeq(g, v)
  {
    hide Dft;
    PowSmall(v);
    assert Exp2(0) == 1 && Offset(0, ns) == 0;
    assert Holds(col, Offset(0, ns), Sub(g, 0, 0), Pow(v, Exp2(0)));
    assert forall j: nat | j < |g| :: col[j] == Dft(g, v, j);
  }

  // ------------------------------------------------ the stages

  /** The twiddle factor of butterfly j. */
  function Twiddle(sct: seq<Complex>, kmr: nat, j: nat, forward: bool): Complex
    requires Product(kmr, j) < |sct|
  {
    if forward then Conj(sct[Product(kmr, j)]) else sct[Product(kmr, j)]
  }

  /** The loop over j. */
  method MergeBlock(f: array2<Complex>, i: nat, ny: nat, k1: nat, ns: nat, kmr: nat, sct: seq<Complex>, forward: bool,
                    ghost x: Complex)
    requires i < f.Length1 && ny <= f.Length0 && k1 + 2 * ns <= ny
    requires forall j: nat | j < ns :: Product(kmr, j) < |sct| && Twiddle(sct, kmr, j, forward) == Pow(x, j)
    modifies f
    ensures Merged(old(Column(f, i, ny)), Column(f, i, ny), k1, ns, x)
    ensures forall r, c | 0 <= r < f.Length0 && 0 <= c < f.Length1 && (c != i || r < k1 || r >= k1 + 2 * ns) ::
              f[r, c] == old(f[r, c])
  {
    hide Plus, Minus, Times, Pow, PairMerged, Twiddle, Product;
    var k2 := k1 + ns;
    ghost var col := Column(f, i, ny);
    for j := 0 to ns
      invariant forall h: nat | h < j :: PairMerged(col, Column(f, i, ny), k1, ns, x, h)
      invariant forall h: nat | j <= h < ns :: PairKept(col, Column(f, i, ny), k1, ns, h)
      invariant forall r, c | 0 <= r < f.Length0 && 0 <= c < f.Length1 && (c != i || r < k1 || r >= k1 + 2 * ns) ::
          f[r, c] == old(f[r, c])
    {
      ghost var mid := Column(f, i, ny);
      var j1, j2 := j + k1, j + k2;
      var t1 := Twiddle(sct, kmr, j, forward);
      var t2 := Times(t1, f[j2, i]);
      f[j2, i] := Minus(f[j1, i], t2);
      f[j1, i] := Plus(f[j1, i], t2);
      NextPair(col, mid, Column(f, i, ny), k1, ns, x, j);
    }
  }

  /** The loop over k: one stage takes the blocks of level d + 1 to those of level d. */
  method Stage(f: array2<Complex>, i: nat, p: nat, d: nat, ns: nat, kmr: nat, sct: seq<Complex>, forward: bool,
               ghost g: seq<Complex>, ghost v: Complex)
    requires d < p && i < f.Length1 && Exp2(p) <= f.Length0 && |g| == Exp2(p) && ns == Exp2(p - d - 1) && Root(v, p)
    requires forall j: nat | j < ns ::
               Product(kmr, j) < |sct| && Twiddle(sct, kmr, j, forward) == Pow(Pow(v, Exp2(d)), j)
    requires Level(Column(f, i, Exp2(p)), g, v, d + 1, ns)
    modifies f
    ensures Level(Column(f, i, Exp2(p)), g, v, d, 2 * ns)
    ensures forall r, c | 0 <= r < f.Length0 && 0 <= c < f.Length1 && (c != i || r >= Exp2(p)) ::
              f[r, c] == old(f[r, c])
  {
    hide Pow, Times, Holds, Sub, Exp2, Root, Merged;
    var ny, km, ns2 := Exp2(p), Exp2(d), ns + ns;
    ghost var x, xx := Pow(v, Exp2(d)), Pow(v, Exp2(d + 1));
    RootAtLevel(v, p, d);
    DoubleExp(d);
    for k := 0 to km
      invariant forall b: nat | b < k :: Holds(Column(f, i, ny), Offset(b, ns2), Sub(g, d, b), x)
      invariant forall b: nat | 2 * k <= b < 2 * km :: Holds(Column(f, i, ny), Offset(b, ns), Sub(g, d + 1, b), xx)
      invariant forall r, c | 0 <= r < f.Length0 && 0 <= c < f.Length1 && (c != i || r >= ny) :: f[r, c] == old(f[r, c])
    {
      ghost var col := Column(f, i, ny);
      var k1 := ns2 * k;
      BlockBounds(p, d, k, ns);
      MergeBlock(f, i, ny, k1, ns, kmr, sct, forward, x);
      BlockMerges(col, Column(f, i, ny), g, p, d, k, ns, x);
      OtherBlocks(col, Column(f, i, ny), g, p, d, k, ns, x, xx);
    }
  }

  lemma DoubleExp(d: nat)
    ensures Exp2(d + 1) == 2 * Exp2(d)
  {
  }

  lemma BlockBounds(p: nat, d: nat, k: nat, ns: nat)
    requires d < p && k < Exp2(d) && ns == Exp2(p - d - 1)
    ensures (ns + ns) * k >= 0 && (ns + ns) * k + 2 * ns <= Exp2(p)
    ensures (ns + ns) * k == Offset(k, ns + ns) == Offset(2 * k, ns) && Offset(2 * k, ns) + ns == Offset(2 * k + 1, ns)
  {
    hide Exp2;
    var n := ns + ns;
    ExpAdd(d, p - d);
    DoubleExp(p - d - 1);
    Commute(n, k);
    MulCompare(k + 1, Exp2(d), n);
    Distribute(k, 1, n);
    DoubledLeft(k, ns);
    Distribute(2 * k, 1, ns);
    MulCompare(0, k, n);
  }

  /** The root used by the blocks of level d has their size as half order. */
  lemma RootAtLevel(v: Complex, p: nat, d: nat)
    requires d < p && Root(v, p)
    ensures Pow(Pow(v, Exp2(d)), Exp2(p - d - 1)) == MINUS_ONE
    ensures Pow(v, Exp2(d + 1)) == Times(Pow(v, Exp2(d)), Pow(v, Exp2(d)))
  {
    hide Times, Pow;
    PowMul(v, Exp2(d), Exp2(p - d - 1));
    ExpAdd(d, p - d - 1);
    PowAdd(v, Exp2(d), Exp2(d));
  }

  lemma SubHalves<T>(g: seq<T>, d: nat, k: nat)
    ensures Sub(g, d + 1, 2 * k) == Evens(Sub(g, d, k)) && Sub(g, d + 1, 2 * k + 1) == Odds(Sub(g, d, k))
  {
    assert (2 * k) / 2 == k && (2 * k + 1) / 2 == k && (2 * k) % 2 == 0 && (2 * k + 1) % 2 == 1;
  }

  lemma BlockMerges(col: seq<Complex>, col': seq<Complex>, g: seq<Complex>, p: nat, d: nat, k: nat, ns: nat, x: Complex)
    requires d < p && k < Exp2(d) && |g| == Exp2(p) && ns == Exp2(p - d - 1) && Pow(x, ns) == MINUS_ONE
    requires (ns + ns) * k >= 0 && Merged(col, col', (ns + ns) * k, ns, x)
    requires Holds(col, Offset(2 * k, ns), Sub(g, d + 1, 2 * k), Times(x, x))
    requires Holds(col, Offset(2 * k + 1, ns), Sub(g, d + 1, 2 * k + 1), Times(x, x))
    ensures Holds(col', Offset(k, ns + ns), Sub(g, d, k), x)
  {
    hide Pow, Times, Holds, Sub, Merged;
    BlockBounds(p, d, k, ns);
    SubHalves(g, d, k);
    SubLength(g, p, d, k);
    MergeHolds(col, col', (ns + ns) * k, ns, Sub(g, d, k), x);
  }

  lemma OtherBlocks(col: seq<Complex>, col': seq<Complex>, g: seq<Complex>, p: nat, d: nat, k: nat, ns: nat, x: Complex,
                    xx: Complex)
    requires d < p && k < Exp2(d) && |g| == |col| == |col'| == Exp2(p) && ns == Exp2(p - d - 1)
    requires forall r | 0 <= r < |col| && (r < (ns + ns) * k || r >= (ns + ns) * k + 2 * ns) :: col'[r] == col[r]
    requires forall b: nat | b < k :: Holds(col, Offset(b, ns + ns), Sub(g, d, b), x)
    requires forall b: nat | 2 * k <= b < 2 * Exp2(d) :: Holds(col, Offset(b, ns), Sub(g, d + 1, b), xx)
    ensures forall b: nat | b < k :: Holds(col', Offset(b, ns + ns), Sub(g, d, b), x)
    ensures forall b: nat | 2 * (k + 1) <= b < 2 * Exp2(d) :: Holds(col', Offset(b, ns), Sub(g, d + 1, b), xx)
  {
    hide Holds, Sub, Exp2;
    BlockBounds(p, d, k, ns);
    forall b: nat | b < k ensures Holds(col', Offset(b, ns + ns), Sub(g, d, b), x) {
      SubLength(g, p, d, b);
      DoubleExp(p - d - 1);
      EarlierBlock(b, k, ns + ns);
      HoldsKept(col, col', Offset(b, ns + ns), Sub(g, d, b), x);
    }
    forall b: nat | 2 * (k + 1) <= b < 2 * Exp2(d) ensures Holds(col', Offset(b, ns), Sub(g, d + 1, b), xx) {
      SubLength(g, p, d + 1, b);
      EarlierBlock(2 * k + 1, b, ns);
      HoldsKept(col, col', Offset(b, ns), Sub(g, d + 1, b), xx);
    }
  }

  lemma EarlierBlock(a: nat, b: nat, n: nat)
    requires a < b
    ensures 0 <= Offset(a, n) && Offset(a, n) + n <= Offset(b, n)
  {
    Distribute(a, b - a, n);
    MulGrows(b - a, n);
    if a > 0 { MulGrows(a, n); }
  }

  // ------------------------------------------------ one column

  /** The twiddles of level d are powers of the root of that level. */
  lemma TwiddlesFit(sct: seq<Complex>, w: Complex, top: nat, p: nat, d: nat, forward: bool, j: nat)
    requires d < p <= top && |sct| >= Exp2(top) / 2 && forall h: nat | h < Exp2(top) / 2 :: sct[h] == Pow(w, h)
    requires j < Exp2(p - d - 1)
    ensures var kmr := Exp2(d) * Exp2(top - p);
            && kmr >= 0 && Product(kmr, j) < |sct|
            && Twiddle(sct, kmr, j, forward) ==
               Pow(Pow(if forward then Conj(Pow(w, Exp2(top - p))) else Pow(w, Exp2(top - p)), Exp2(d)), j)
  {
    hide Pow, Times, Exp2;
    var r := Exp2(top - p);
    var kmr := Exp2(d) * r;
    ExpAdd(d, top - p);
    ExpAdd(d + (top - p), p - d - 1);
    DoubleExp(top - 1);
    InRange(kmr, j, Exp2(p - d - 1));
    PowMul(w, r, Exp2(d));
    assert r * Exp2(d) == kmr;
    PowMul(w, kmr, j);
    if forward {
      PowConj(Pow(w, r), Exp2(d));
      PowConj(Pow(w, kmr), j);
    }
  }

  lemma InRange(a: nat, j: nat, n: nat)
    requires j < n && a >= 1
    ensures 0 <= Product(a, j) < a * n
  {
    Distribute(j, n - j, a);
    MulGrows(n - j, a);
    if j > 0 { MulGrows(j, a); }
  }

  /** One iteration of the loop over i: bit reversal, then the stages. */
  method TransformColumn(f: array2<Complex>, i: nat, mixup: seq<int>, sct: seq<Complex>, indx: nat, indy: nat,
                         forward: bool, ghost w: Complex)
    requires i < f.Length1 && Exp2(indy) <= f.Length0 && Tables(mixup, sct, w, indx, indy)
    modifies f
    ensures Column(f, i, Exp2(indy)) == DftSeq(old(Column(f, i, Exp2(indy))), RootY(w, indx, indy, forward))
    ensures forall r, c | 0 <= r < f.Length0 && 0 <= c < f.Length1 && (c != i || r >= Exp2(indy)) ::
              f[r, c] == old(f[r, c])
  {
    hide Pow, Times, Exp2, Rev, Holds, Level, DftSeq, Root, Reversed;
    var bits := Max(indx - 1, indy);
    ghost var top := Max(indx, indy);
    var ny := Exp2(indy);
    var nyh := ny / 2;
    var nry := Exp2(Max(indx, indy)) / ny;
    ghost var g, v := Column(f, i, ny), RootY(w, indx, indy, forward);
    ExpAdd(top - indy, indy);
    RootOfOrder(w, indx, indy, forward);
    ReverseColumn(f, i, mixup, bits, indy);
    ReversedIsLevel(g, v, indy);
    var ns := 1;
    ghost var d := indy;
    ExpZero();
    for l := 0 to indy
      invariant d == indy - l && ns == Exp2(l)
      invariant Level(Column(f, i, ny), g, v, d, ns)
      invariant forall r, c | 0 <= r < f.Length0 && 0 <= c < f.Length1 && (c != i || r >= ny) :: f[r, c] == old(f[r, c])
    {
      d := d - 1;
      StageSizes(indy, l);
      var km := nyh / ns;
      var kmr := km * nry;
      forall j: nat | j < ns
        ensures Product(kmr, j) < |sct| && Twiddle(sct, kmr, j, forward) == Pow(Pow(v, Exp2(d)), j)
      {
        TwiddlesFit(sct, w, top, indy, d, forward, j);
      }
      Stage(f, i, indy, indy - l - 1, ns, kmr, sct, forward, g, v);
      ns := ns + ns;
      DoubleExp(l);
    }
    LevelIsTransform(Column(f, i, ny), g, v, ns);
  }

  lemma ExpZero()
    ensures Exp2(0) == 1
  {
  }

  lemma StageSizes(indy: nat, l: nat)
    requires l < indy
    ensures (Exp2(indy) / 2) / Exp2(l) == Exp2(indy - l - 1)
  {
    ExpAdd(indy - l - 1, l);
  }

  /** The root of the transform in y: w to the power nxy / ny, or its conjugate. */
  function RootY(w: Complex, indx: nat, indy: nat, forward: bool): Complex {
    var v := Pow(w, Exp2(Max(indx, indy) - indy));
    if forward then Conj(v) else v
  }

  /** The inverse pass transforms with the root of the table, which stands for exp(-2 pi i / ny), the
      forward pass with its conjugate. */
  lemma DirectionOfRoot(w: Complex, indx: nat, indy: nat)
    ensures RootY(w, indx, indy, false) == Pow(w, Exp2(Max(indx, indy)) / Exp2(indy))
    ensures RootY(w, indx, indy, true) == Conj(Pow(w, Exp2(Max(indx, indy)) / Exp2(indy)))
  {
    hide Pow, Times, Root;
    var top := Max(indx, indy);
    ExpAdd(top - indy, indy);
    QuotientIs(Exp2(top), Exp2(indy), Exp2(top - indy));
  }

  lemma RootOfOrder(w: Complex, indx: nat, indy: nat, forward: bool)
    requires Root(w, Max(indx, indy)) && Times(w, Conj(w)) == ONE
    ensures Root(RootY(w, indx, indy, forward), indy)
    ensures Times(RootY(w, indx, indy, false), RootY(w, indx, indy, true)) == ONE
  {
    hide Root, Times;
    RootOfPower(w, Max(indx, indy), indy);
  }

  /** A power of a root, and its conjugate, are roots of the smaller order. */
  lemma RootOfPower(w: Complex, top: nat, p: nat)
    requires p <= top && Root(w, top) && Times(w, Conj(w)) == ONE
    ensures var v := Pow(w, Exp2(top - p));
            Root(v, p) && Root(Conj(v), p) && Times(v, Conj(v)) == ONE
  {
    hide Pow, Times, Exp2, Root, Conj;
    PowerIsRoot(w, top, p);
    ConjugateIsRoot(Pow(w, Exp2(top - p)), p);
    PowerHasInverse(w, Exp2(top - p));
  }

  lemma PowerIsRoot(w: Complex, top: nat, p: nat)
    requires p <= top && Root(w, top)
    ensures Root(Pow(w, Exp2(top - p)), p)
  {
    hide Pow, Exp2;
    if p > 0 {
      PowMul(w, Exp2(top - p), Exp2(p - 1));
      ExpAdd(top - p, p - 1);
    }
  }

  lemma ConjugateIsRoot(v: Complex, p: nat)
    requires Root(v, p)
    ensures Root(Conj(v), p)
  {
    hide Pow, Exp2;
    if p > 0 { PowConj(v, Exp2(p - 1)); }
  }

  lemma PowerHasInverse(w: Complex, n: nat)
    requires Times(w, Conj(w)) == ONE
    ensures Times(Pow(w, n), Conj(Pow(w, n))) == ONE
  {
    hide Pow, Times;
    PowTimes(w, Conj(w), n);
    PowOne(n);
    PowConj(w, n);
  }

  // ------------------------------------------------ modes kx = 0 and nx / 2, packed in column 0

  /** Rows k and ny - k after unscrambling. */
  function Low(a: Complex, b: Complex): Complex { Complex(0.5 * (a.re + b.re), 0.5 * (a.im - b.im)) }

  function High(a: Complex, b: Complex): Complex { Complex(0.5 * (a.im + b.im), 0.5 * (a.re - b.re)) }

  function Unscrambled(c: seq<Complex>): (u: seq<Complex>)
    ensures |u| == |c|
  {
    seq(|c|, r requires 0 <= r < |c| => UnscrambledAt(c, r))
  }

  function UnscrambledAt(c: seq<Complex>, r: int): Complex
    requires 0 <= r < |c|
  {
    if 0 < r < |c| / 2 then Low(c[r], c[|c| - r])
    else if 0 < |c| - r < |c| / 2 then High(c[|c| - r], c[r])
    else c[r]
  }

  function Swapped(b: Complex): Complex { Complex(b.im, b.re) }

  function Scrambled(c: seq<Complex>): (u: seq<Complex>)
    ensures |u| == |c|
  {
    seq(|c|, r requires 0 <= r < |c| => ScrambledAt(c, r))
  }

  function ScrambledAt(c: seq<Complex>, r: int): Complex
    requires 0 <= r < |c|
  {
    if 0 < r < |c| / 2 then Plus(c[r], Swapped(c[|c| - r]))
    else if 0 < |c| - r < |c| / 2 then Conj(Minus(c[|c| - r], Swapped(c[r])))
    else c[r]
  }

  lemma PairInverse(a: Complex, b: Complex)
    ensures Plus(Low(a, b), Swapped(High(a, b))) == a && Conj(Minus(Low(a, b), Swapped(High(a, b)))) == b
    ensures Low(Plus(a, Swapped(b)), Conj(Minus(a, Swapped(b)))) == a
            && High(Plus(a, Swapped(b)), Conj(Minus(a, Swapped(b)))) == b
  {
  }

  /** Scrambling and unscrambling undo each other. */
  lemma ScrambleInverse(c: seq<Complex>)
    ensures Scrambled(Unscrambled(c)) == c && Unscrambled(Scrambled(c)) == c
  {
    hide Low, High, Plus, Minus, Conj, Swapped;
    var u, s := Unscrambled(c), Scrambled(c);
    forall r | 0 <= r < |c| ensures Scrambled(u)[r] == c[r] && Unscrambled(s)[r] == c[r] {
      if r > 0 {
        PairInverse(c[r], c[|c| - r]);
        PairInverse(c[|c| - r], c[r]);
      }
    }
  }

  // ------------------------------------------------ what the packed column means

  function RealParts(c: seq<Complex>): (a: seq<Complex>)
    ensures |a| == |c|
  {
    seq(|c|, m requires 0 <= m < |c| => Complex(c[m].re, 0.0))
  }

  function ImaginaryParts(c: seq<Complex>): (b: seq<Complex>)
    ensures |b| == |c|
  {
    seq(|c|, m requires 0 <= m < |c| => Complex(c[m].im, 0.0))
  }

  lemma EvalParts(c: seq<Complex>, x: Complex)
    ensures Eval(c, x) == Plus(Eval(RealParts(c), x), Times(I, Eval(ImaginaryParts(c), x)))
  {
    hide Times, Eval;
    var b := ImaginaryParts(c);
    var turned := seq(|c|, m requires 0 <= m < |c| => Times(I, b[m]));
    forall m | 0 <= m < |c| ensures c[m] == Plus(RealParts(c)[m], turned[m]) {
      UnitLaws(c[m]);
    }
    EvalPlus(RealParts(c), turned, c, x);
    EvalTimes(I, b, turned, x);
  }

  /** At conjugate points a sequence of real numbers has conjugate values. */
  lemma {:induction false} EvalConjugate(a: seq<Complex>, x: Complex)
    requires forall m | 0 <= m < |a| :: a[m].im == 0.0
    ensures Eval(a, Conj(x)) == Conj(Eval(a, x))
  {
    hide Times;
    if a != [] {
      EvalConjugate(a[1..], x);
      ConjTimes(x, Eval(a[1..], x));
    }
  }

  lemma {:induction false} RootPower(v: Complex, p: nat)
    requires Root(v, p) && Times(v, Conj(v)) == ONE && p > 0
    ensures Pow(v, Exp2(p)) == ONE
  {
    hide Times, Pow;
    PowAdd(v, Exp2(p - 1), Exp2(p - 1));
    TimesOne(MINUS_ONE);
  }

  /** The powers of v go round: those at k and at ny - k are conjugate. */
  lemma MirrorPower(v: Complex, p: nat, k: nat)
    requires Root(v, p) && Times(v, Conj(v)) == ONE && p > 0 && k <= Exp2(p)
    ensures Pow(v, Exp2(p) - k) == Conj(Pow(v, k))
  {
    hide Times, Pow, Exp2, Root;
    var x, y := Pow(v, k), Pow(v, Exp2(p) - k);
    RootPower(v, p);
    PowAdd(v, k, Exp2(p) - k);
    PowerHasInverse(v, k);
    TimesAssoc(Conj(x), x, y);
    TimesComm(Conj(x), x);
    TimesOne(y);
    TimesOne(Conj(x));
  }

  lemma UnpackPair(a: Complex, b: Complex, c: Complex, c': Complex)
    requires c == Plus(a, Times(I, b)) && c' == Plus(Conj(a), Times(I, Conj(b)))
    ensures Low(c, c') == a && High(c, c') == Conj(b)
  {
  }

  lemma UnpackReal(a: Complex, b: Complex)
    requires a.im == 0.0 && b.im == 0.0
    ensures Plus(a, Times(I, b)) == Complex(a.re, b.re)
  {
  }

  /** The transform at k and at ny - k, from those of the two packed columns. */
  lemma PackedValues(c: seq<Complex>, v: Complex, p: nat, k: nat)
    requires p > 0 && |c| == Exp2(p) && Root(v, p) && Times(v, Conj(v)) == ONE && k <= |c|
    ensures var a, b := RealParts(c), ImaginaryParts(c);
            && Dft(c, v, k) == Plus(Dft(a, v, k), Times(I, Dft(b, v, k)))
            && Dft(c, v, |c| - k) == Plus(Conj(Dft(a, v, k)), Times(I, Conj(Dft(b, v, k))))
            && Dft(a, v, |c| - k) == Conj(Dft(a, v, k)) && Dft(b, v, |c| - k) == Conj(Dft(b, v, k))
  {
    hide Times, Eval, Pow, Plus, Exp2, Root;
    MirrorPower(v, p, k);
    EvalParts(c, Pow(v, k));
    EvalParts(c, Conj(Pow(v, k)));
    EvalConjugate(RealParts(c), Pow(v, k));
    EvalConjugate(ImaginaryParts(c), Pow(v, k));
  }

  /** Where k and ny - k are the same row, modulo ny, the two transforms are real. */
  lemma PackedEdge(c: seq<Complex>, v: Complex, p: nat, k: nat)
    requires p > 0 && |c| == Exp2(p) && Root(v, p) && Times(v, Conj(v)) == ONE && (k == 0 || 2 * k == |c|)
    ensures var a, b := RealParts(c), ImaginaryParts(c);
            && Dft(a, v, k).im == 0.0 && Dft(b, v, k).im == 0.0
            && Dft(c, v, k) == Complex(Dft(a, v, k).re, Dft(b, v, k).re)
  {
    hide Times, Eval, Pow, Plus, Exp2, Root;
    PackedValues(c, v, p, k);
    if k == 0 {
      PowSmall(v);
      assert Conj(Pow(v, 0)) == Pow(v, 0);
      EvalConjugate(RealParts(c), Pow(v, k));
      EvalConjugate(ImaginaryParts(c), Pow(v, k));
    }
    UnpackReal(Dft(RealParts(c), v, k), Dft(ImaginaryParts(c), v, k));
  }

  lemma RowsOfUnscrambled(t: seq<Complex>, k: nat)
    requires k <= |t| / 2 && 1 < |t|
    ensures if k == 0 || 2 * k == |t| then Unscrambled(t)[k] == t[k]
            else if 2 * k < |t| - 1 then
              Unscrambled(t)[k] == Low(t[k], t[|t| - k]) && Unscrambled(t)[|t| - k] == High(t[k], t[|t| - k])
            else true
  {
    hide Low, High;
  }

  /** The pairs of rows below k and their mirror images are done. */
  ghost predicate UnscrambledBelow(col: seq<Complex>, cur: seq<Complex>, k: int) {
    && |cur| == |col|
    && forall r | 0 <= r < |col| :: cur[r] == if r < k || |col| - r < k then UnscrambledAt(col, r) else col[r]
  }

  lemma NextUnscrambled(col: seq<Complex>, cur: seq<Complex>, k: int)
    requires UnscrambledBelow(col, cur, k) && 1 <= k < |col| / 2
    ensures UnscrambledBelow(col, cur[|cur| - k := High(cur[k], cur[|cur| - k])][k := Low(cur[k], cur[|cur| - k])],
                             k + 1)
  {
    hide Low, High, Plus, Minus, Conj, Swapped;
  }

  lemma AllUnscrambled(col: seq<Complex>, cur: seq<Complex>, k: int)
    requires UnscrambledBelow(col, cur, k) && (k == |col| / 2 || (k == 1 && |col| / 2 <= 1))
    ensures cur == Unscrambled(col)
  {
    hide Low, High, Plus, Minus, Conj, Swapped;
  }

  method Unscramble(f: array2<Complex>, ny: nat)
    requires f.Length1 >= 1 && ny <= f.Length0
    modifies f
    ensures Column(f, 0, ny) == Unscrambled(old(Column(f, 0, ny)))
    ensures forall r, c | 0 <= r < f.Length0 && 0 <= c < f.Length1 && (c != 0 || r >= ny) :: f[r, c] == old(f[r, c])
  {
    hide Low, High, Plus, Minus, Conj, Swapped, UnscrambledBelow;
    var nyh := ny / 2;
    ghost var col := Column(f, 0, ny);
    FirstUnscrambled(col);
    var k := 1;
    while k < nyh
      invariant 1 <= k && (k <= nyh || k == 1)
      invariant UnscrambledBelow(col, Column(f, 0, ny), k)
      invariant forall r, c | 0 <= r < f.Length0 && 0 <= c < f.Length1 && (c != 0 || r >= ny) :: f[r, c] == old(f[r, c])
    {
      ghost var cur := Column(f, 0, ny);
      var a, b := f[k, 0], f[ny - k, 0];
      f[ny - k, 0] := High(a, b);
      f[k, 0] := Low(a, b);
      NextUnscrambled(col, cur, k);
      assert Column(f, 0, ny) == cur[|cur| - k := High(cur[k], cur[|cur| - k])][k := Low(cur[k], cur[|cur| - k])];
      k := k + 1;
    }
    AllUnscrambled(col, Column(f, 0, ny), k);
  }

  lemma FirstUnscrambled(col: seq<Complex>)
    ensures UnscrambledBelow(col, col, 1)
  {
  }

  /** The pairs of rows below k and their mirror images are done. */
  ghost predicate ScrambledBelow(col: seq<Complex>, cur: seq<Complex>, k: int) {
    && |cur| == |col|
    && forall r | 0 <= r < |col| :: cur[r] == if r < k || |col| - r < k then ScrambledAt(col, r) else col[r]
  }

  lemma NextScrambled(col: seq<Complex>, cur: seq<Complex>, k: int)
    requires ScrambledBelow(col, cur, k) && 1 <= k < |col| / 2
    ensures ScrambledBelow(col,
            cur[|cur| - k := Conj(Minus(cur[k], Swapped(cur[|cur| - k])))][k := Plus(cur[k], Swapped(cur[|cur| - k]))],
                           k + 1)
  {
    hide Low, High, Plus, Minus, Conj, Swapped;
  }

  lemma AllScrambled(col: seq<Complex>, cur: seq<Complex>, k: int)
    requires ScrambledBelow(col, cur, k) && (k == |col| / 2 || (k == 1 && |col| / 2 <= 1))
    ensures cur == Scrambled(col)
  {
    hide Low, High, Plus, Minus, Conj, Swapped;
  }

  method Scramble(f: array2<Complex>, ny: nat)
    requires f.Length1 >= 1 && ny <= f.Length0
    modifies f
    ensures Column(f, 0, ny) == Scrambled(old(Column(f, 0, ny)))
    ensures forall r, c | 0 <= r < f.Length0 && 0 <= c < f.Length1 && (c != 0 || r >= ny) :: f[r, c] == old(f[r, c])
  {
    hide Low, High, Plus, Minus, Conj, Swapped, ScrambledBelow;
    var nyh := ny / 2;
    ghost var col := Column(f, 0, ny);
    FirstScrambled(col);
    var k := 1;
    while k < nyh
      invariant 1 <= k && (k <= nyh || k == 1)
      invariant ScrambledBelow(col, Column(f, 0, ny), k)
      invariant forall r, c | 0 <= r < f.Length0 && 0 <= c < f.Length1 && (c != 0 || r >= ny) :: f[r, c] == old(f[r, c])
    {
      ghost var cur := Column(f, 0, ny);
      var t1 := Swapped(f[ny - k, 0]);
      f[ny - k, 0] := Conj(Minus(f[k, 0], t1));
      f[k, 0] := Plus(f[k, 0], t1);
      NextScrambled(col, cur, k);
      assert Column(f, 0, ny) ==
             cur[|cur| - k := Conj(Minus(cur[k], Swapped(cur[|cur| - k])))][k := Plus(cur[k], Swapped(cur[|cur| - k]))];
      k := k + 1;
    }
    AllScrambled(col, Column(f, 0, ny), k);
  }

  lemma FirstScrambled(col: seq<Complex>)
    ensures ScrambledBelow(col, col, 1)
  {
  }

  // ------------------------------------------------ the whole pass

  predicate InRangeX(i: int, nxi: int, nxp: int) { nxi - 1 <= i < nxi - 1 + nxp }

  /** What the inverse pass makes of column i. */
  function InverseColumn(c: seq<Complex>, i: int, nxi: int, nxp: int, v: Complex): seq<Complex> {
    var t := if InRangeX(i, nxi, nxp) then DftSeq(c, v) else c;
    if nxi == 1 && i == 0 then Unscrambled(t) else t
  }

  function ForwardColumn(c: seq<Complex>, i: int, nxi: int, nxp: int, v: Complex): seq<Complex> {
    var s := if nxi == 1 && i == 0 then Scrambled(c) else c;
    if InRangeX(i, nxi, nxp) then DftSeq(s, v) else s
  }

  /** Main result on the inverse pass.  Row k of an ordinary column holds element k of its transform.
      Column 0 packs two real columns, in its real and in its imaginary parts: row k below ny / 2 ends
      with element k of the transform of the first, row ny - k with element ny - k of that of the
      second, and rows 0 and ny / 2, where both transforms are real, with the first in the real and the
      second in the imaginary part. */
  lemma InverseColumnMeans(c: seq<Complex>, i: int, nxi: int, nxp: int, v: Complex, p: nat, k: nat)
    requires p > 0 && |c| == Exp2(p) && Root(v, p) && Times(v, Conj(v)) == ONE && k <= |c| / 2
    requires 1 <= nxi <= i + 1 <= nxi - 1 + nxp
    ensures var u, a, b := InverseColumn(c, i, nxi, nxp, v), RealParts(c), ImaginaryParts(c);
            if i != 0 then u[k] == Dft(c, v, k) && (k > 0 ==> u[|c| - k] == Dft(c, v, |c| - k))
            else if k == 0 || 2 * k == |c| then
              Dft(a, v, k).im == 0.0 && Dft(b, v, k).im == 0.0 && u[k] == Complex(Dft(a, v, k).re, Dft(b, v, k).re)
            else u[k] == Dft(a, v, k) && u[|c| - k] == Dft(b, v, |c| - k)
  {
    hide Dft, Low, High, Plus, Times, Unscrambled, Root, Pow;
    var a, b, t := RealParts(c), ImaginaryParts(c), DftSeq(c, v);
    assert |c| == 2 * Exp2(p - 1);
    if i == 0 {
      RowsOfUnscrambled(t, k);
      if k == 0 || 2 * k == |c| {
        PackedEdge(c, v, p, k);
      } else {
        PackedValues(c, v, p, k);
        UnpackPair(Dft(a, v, k), Dft(b, v, k), t[k], t[|c| - k]);
      }
    }
  }

  /** Columns outside the range keep their values, except that the packed column may be unpacked. */
  lemma OtherColumnsStay(c: seq<Complex>, i: int, nxi: int, nxp: int, v: Complex)
    requires i < nxi - 1 || i >= nxi - 1 + nxp
    ensures i != 0 || nxi != 1 ==> InverseColumn(c, i, nxi, nxp, v) == c == ForwardColumn(c, i, nxi, nxp, v)
  {
  }

  method TransformColumns(f: array2<Complex>, mixup: seq<int>, sct: seq<Complex>, indx: nat, indy: nat, nxi: nat,
                          nxp: nat, forward: bool, ghost w: Complex)
    requires Exp2(indy) <= f.Length0 && 1 <= nxi && nxi - 1 + nxp <= f.Length1 && Tables(mixup, sct, w, indx, indy)
    modifies f
    ensures forall i: nat | i < f.Length1 ::
              Column(f, i, Exp2(indy)) ==
              if InRangeX(i, nxi, nxp) then DftSeq(old(Column(f, i, Exp2(indy))), RootY(w, indx, indy, forward))
              else old(Column(f, i, Exp2(indy)))
    ensures forall r, c | Exp2(indy) <= r < f.Length0 && 0 <= c < f.Length1 :: f[r, c] == old(f[r, c])
  {
    hide DftSeq, Exp2, RootY, Tables;
    ghost var ny, v := Exp2(indy), RootY(w, indx, indy, forward);
    for i := nxi - 1 to nxi - 1 + nxp
      invariant forall h: nat | h < f.Length1 ::
                  Column(f, h, ny) ==
                  if nxi - 1 <= h < i then DftSeq(old(Column(f, h, ny)), v) else old(Column(f, h, ny))
      invariant forall r, c | ny <= r < f.Length0 && 0 <= c < f.Length1 :: f[r, c] == old(f[r, c])
    {
      label Before:
      TransformColumn(f, i, mixup, sct, indx, indy, forward, w);
      forall h: nat | h < f.Length1 && h != i ensures Column(f, h, ny) == old@Before(Column(f, h, ny)) {
      }
    }
  }

  /** cfft2rmxy.  Each iteration of its parallel loop writes one column only. */
  method Cfft2rmxy(f: array2<Complex>, isign: int, mixup: seq<int>, sct: seq<Complex>, indx: nat, indy: nat, nxi: nat,
                   nxp: nat, ghost w: Complex)
    requires Exp2(indy) <= f.Length0 && 1 <= nxi && nxi - 1 + nxp <= f.Length1 && 1 <= f.Length1
             && Tables(mixup, sct, w, indx, indy)
    modifies f
    ensures forall i: nat | i < f.Length1 ::
              Column(f, i, Exp2(indy)) ==
              if isign == 0 then old(Column(f, i, Exp2(indy)))
              else if isign < 0 then
                InverseColumn(old(Column(f, i, Exp2(indy))), i, nxi, nxp, RootY(w, indx, indy, false))
              else
                ForwardColumn(old(Column(f, i, Exp2(indy))), i, nxi, nxp, RootY(w, indx, indy, true))
    ensures forall r, c | Exp2(indy) <= r < f.Length0 && 0 <= c < f.Length1 :: f[r, c] == old(f[r, c])
  {
    hide DftSeq, Exp2, RootY, Tables, Scrambled, Unscrambled;
    if isign == 0 { return; }
    var ny := Exp2(indy);
    if isign < 0 {
      TransformColumns(f, mixup, sct, indx, indy, nxi, nxp, false, w);
      label Transformed:
      if nxi == 1 {
        Unscramble(f, ny);
        forall h: nat | 0 < h < f.Length1 ensures Column(f, h, ny) == old@Transformed(Column(f, h, ny)) {
        }
      }
    } else {
      if nxi == 1 {
        Scramble(f, ny);
        forall h: nat | 0 < h < f.Length1 ensures Column(f, h, ny) == old(Column(f, h, ny)) {
        }
      }
      TransformColumns(f, mixup, sct, indx, indy, nxi, nxp, true, w);
    }
  }

  /** Main result: the forward pass after the inverse pass gives ny times the input in every
      transformed column, the packed column 0 included, and the input itself elsewhere. */
  lemma RoundTrip(c: seq<Complex>, i: int, nxi: int, nxp: int, w: Complex, indx: nat, indy: nat)
    requires |c| == Exp2(indy) && Root(w, Max(indx, indy)) && Times(w, Conj(w)) == ONE
    ensures ForwardColumn(InverseColumn(c, i, nxi, nxp, RootY(w, indx, indy, false)), i, nxi, nxp,
                          RootY(w, indx, indy, true)) ==
            if nxi - 1 <= i < nxi - 1 + nxp
            then seq(|c|, n requires 0 <= n < |c| => Scale(Exp2(indy) as real, c[n])) else c
  {
    hide DftSeq, Scrambled, Unscrambled, RootY, Root;
    var v, v' := RootY(w, indx, indy, false), RootY(w, indx, indy, true);
    RootOfOrder(w, indx, indy, false);
    RootOfOrder(w, indx, indy, true);
    ScrambleInverse(if InRangeX(i, nxi, nxp) then DftSeq(c, v) else c);
    InverseTransform(c, v, v', indy);
  }

  /** The two passes one after the other, on the array: an inverse transform that is undone by a
      forward one multiplies the transformed columns by ny and leaves all else as it was. */
  method InverseThenForward(f: array2<Complex>, mixup: seq<int>, sct: seq<Complex>, indx: nat, indy: nat, nxi: nat,
                            nxp: nat, ghost w: Complex)
    requires Exp2(indy) <= f.Length0 && 1 <= nxi && nxi - 1 + nxp <= f.Length1 && 1 <= f.Length1
             && Tables(mixup, sct, w, indx, indy)
    requires Root(w, Max(indx, indy)) && Times(w, Conj(w)) == ONE
    modifies f
    ensures forall r, c | 0 <= r < Exp2(indy) && 0 <= c < f.Length1 ::
              f[r, c] == if nxi - 1 <= c < nxi - 1 + nxp then Scale(Exp2(indy) as real, old(f[r, c]))
                         else old(f[r, c])
    ensures forall r, c | Exp2(indy) <= r < f.Length0 && 0 <= c < f.Length1 :: f[r, c] == old(f[r, c])
  {
    hide Exp2, RootY, Tables, Root, Times, InverseColumn, ForwardColumn, Scale;
    ghost var ny := Exp2(indy);
    Cfft2rmxy(f, -1, mixup, sct, indx, indy, nxi, nxp, w);
    Cfft2rmxy(f, 1, mixup, sct, indx, indy, nxi, nxp, w);
    forall r, c | 0 <= r < ny && 0 <= c < f.Length1
      ensures f[r, c] == if nxi - 1 <= c < nxi - 1 + nxp then Scale(ny as real, old(f[r, c])) else old(f[r, c])
    {
      RoundTrip(old(Column(f, c, ny)), c, nxi, nxp, w, indx, indy);
      assert Column(f, c, ny)[r] == f[r, c] && old(Column(f, c, ny))[r] == old(f[r, c]);
    }
  }
}
