/** cgppost2l and caguard2l: charge is deposited tile by tile through a local accumulator, and the
    guard row and column are folded back.  q[r, c] is the grid point with y = r and x = c. */
module ChargeDeposit {
  import opened Tiles
  import opened Holes
  import opened Reorder
  import opened ParticleLaws
  import opened ParticleOrder
  import opened Blocks

  // ------------------------------------------------ linear interpolation

  /** The share of a particle with coordinate x and weight `whole` at grid coordinate c. */
  function Hat(x: real, whole: real, c: int): real {
    var n := x.Floor;
    if c == n then whole - whole * (x - n as real)
    else if c == n + 1 then whole * (x - n as real)
    else 0.0
  }

  /** The charge that particle p puts on grid point (r, c). */
  function Weight(p: Particle, qm: real, r: int, c: int): real {
    Hat(p.x, qm, c) * Hat(p.y, 1.0, r)
  }

  /** The charge of all particles of s at grid point (r, c). */
  function Density(s: seq<Particle>, qm: real, r: int, c: int): real {
    if s == [] then 0.0 else Density(s[..|s| - 1], qm, r, c) + Weight(s[|s| - 1], qm, r, c)
  }

  lemma DensitySnoc(s: seq<Particle>, p: Particle, qm: real, r: int, c: int)
    ensures Density(s + [p], qm, r, c) == Density(s, qm, r, c) + Weight(p, qm, r, c)
  {
    assert (s + [p])[..|s|] == s;
  }

  // ------------------------------------------------ the part of the grid that a tile reaches

  /** The grid points that the accumulator of a tile is added to, one axis. */
  predicate Reaches(c: int, off: int, m: int, nv: int) {
    off <= c < off + (if m + 1 < nv - off then m + 1 else nv - off)
  }

  /** A particle of the tile puts charge only on points that the tile reaches. */
  lemma HatReaches(x: real, cx: int, m: int, n: int, pieces: int, nv: int, whole: real, c: int)
    requires Axis(n, m, pieces) && 0 <= cx < pieces && InPiece(x, cx, m, n) && nv >= n + 1
    ensures Edge(cx, m) <= x.Floor < UpperEdge(cx, m, n)
    ensures !Reaches(c, Edge(cx, m), m, nv) ==> Hat(x, whole, c) == 0.0
  {
    AxisFacts(n, m, pieces, cx);
  }

  lemma {:induction false} DensityReaches(g: Grid, s: seq<Particle>, k: int, qm: real, nxv: int, nyv: int, r: int,
                                          c: int)
    requires g.Valid() && 0 <= k < g.Count() && nxv >= g.nx + 1 && nyv >= g.ny + 1 && forall j | 0 <= j < |s| ::
               InTile(g, k, s[j])
    requires !(Reaches(c, Edge(TileX(g, k), g.mx), g.mx, nxv) && Reaches(r, Edge(TileY(g, k), g.my), g.my, nyv))
    ensures Density(s, qm, r, c) == 0.0
  {
    hide Hat, Reaches, InPiece;
    if s != [] {
      var p := s[|s| - 1];
      DensityReaches(g, s[..|s| - 1], k, qm, nxv, nyv, r, c);
      TileParts(g, k);
      assert InTile(g, k, p);
      HatReaches(p.x, TileX(g, k), g.mx, g.nx, g.mx1, nxv, qm, c);
      HatReaches(p.y, TileY(g, k), g.my, g.ny, g.my1, nyv, 1.0, r);
    }
  }

  // ------------------------------------------------ the local accumulator

  const MXV := 33
  const MYV := 33

  /** Place (b, a) of a tile in the accumulator, which is declared with MXV * MYV places. */
  function AccumulatorIndex(mx: int, b: int, a: int): int { a + (mx + 1) * b }

  /** The tile with its guards fits.  The code has a test for it, but it is commented out. */
  predicate AccumulatorFits(g: Grid) { (g.mx + 1) * (g.my + 1) <= MXV * MYV }

  /** The loops over a tile stay inside the accumulator exactly if its guarded size is no larger. */
  lemma AccumulatorFitsIff(g: Grid)
    requires g.Valid()
    ensures AccumulatorFits(g) <==>
            forall b, a | 0 <= b <= g.my && 0 <= a <= g.mx :: 0 <= AccumulatorIndex(g.mx, b, a) < MXV * MYV
  {
    var w := g.mx + 1;
    Distribute(g.my, 1, w);
    Commute(w, g.my);
    Commute(w, g.my + 1);
    assert AccumulatorIndex(g.mx, g.my, g.mx) == w * (g.my + 1) - 1;
    forall b, a | 0 <= b <= g.my && 0 <= a <= g.mx ensures 0 <= AccumulatorIndex(g.mx, b, a) <= w * (g.my + 1) - 1 {
      Commute(w, b);
      MulCompare(b, g.my, w);
      MulCompare(0, b, w);
    }
  }

  /** Tiles of 40 by 40 points are too large: the first loop would clear place 1089 and more. */
  lemma AccumulatorTooSmall(g: Grid)
    requires g.Valid() && g.mx == 40 && g.my == 40
    ensures !AccumulatorFits(g) && AccumulatorIndex(g.mx, 26, 23) == MXV * MYV
  {
  }

  method ClearAccumulator(sq: array2<real>)
    modifies sq
    ensures forall b, a | 0 <= b < sq.Length0 && 0 <= a < sq.Length1 :: sq[b, a] == 0.0
  {
    for b := 0 to sq.Length0
      invariant forall j, a | 0 <= j < b && 0 <= a < sq.Length1 :: sq[j, a] == 0.0
    {
      for a := 0 to sq.Length1
        invariant forall j, i | 0 <= j < b && 0 <= i < sq.Length1 :: sq[j, i] == 0.0
        invariant forall i | 0 <= i < a :: sq[b, i] == 0.0
      {
        sq[b, a] := 0.0;
      }
    }
  }

  /** One particle: four places of the accumulator are increased. */
  method DepositParticle(sq: array2<real>, p: Particle, qm: real, noff: int, moff: int)
    requires 0 <= p.x.Floor - noff && p.x.Floor - noff + 1 < sq.Length1 && 0 <= p.y.Floor - moff
             && p.y.Floor - moff + 1 < sq.Length0
    modifies sq
    ensures forall b, a | 0 <= b < sq.Length0 && 0 <= a < sq.Length1 ::
              sq[b, a] == old(sq[b, a]) + Weight(p, qm, b + moff, a + noff)
  {
    var nn, mm := p.x.Floor, p.y.Floor;
    var dxp := qm * (p.x - nn as real);
    var dyp := p.y - mm as real;
    var a, b := nn - noff, mm - moff;
    var amx, amy := qm - dxp, 1.0 - dyp;
    WeightsAre(p, qm, nn, mm, dxp, dyp, amx, amy);
    var x, y := sq[b, a] + amx * amy, sq[b, a + 1] + dxp * amy;
    sq[b, a] := x;
    sq[b, a + 1] := y;
    x, y := sq[b + 1, a] + amx * dyp, sq[b + 1, a + 1] + dxp * dyp;
    sq[b + 1, a] := x;
    sq[b + 1, a + 1] := y;
    forall j, i | 0 <= j < sq.Length0 && 0 <= i < sq.Length1
      ensures sq[j, i] == old(sq[j, i]) + Weight(p, qm, j + moff, i + noff) {
      if (i != a && i != a + 1) || (j != b && j != b + 1) { NoWeight(p, qm, j + moff, i + noff); }
    }
  }

  lemma WeightsAre(p: Particle, qm: real, nn: int, mm: int, dxp: real, dyp: real, amx: real, amy: real)
    requires nn == p.x.Floor && mm == p.y.Floor && dxp == qm * (p.x - nn as real) && dyp == p.y - mm as real
             && amx == qm - dxp && amy == 1.0 - dyp
    ensures Weight(p, qm, mm, nn) == amx * amy && Weight(p, qm, mm, nn + 1) == dxp * amy
    ensures Weight(p, qm, mm + 1, nn) == amx * dyp && Weight(p, qm, mm + 1, nn + 1) == dxp * dyp
  {
    assert Hat(p.x, qm, nn) == amx && Hat(p.x, qm, nn + 1) == dxp && Hat(p.y, 1.0, mm) == amy
           && Hat(p.y, 1.0, mm + 1) == dyp;
  }

  lemma NoWeight(p: Particle, qm: real, r: int, c: int)
    requires (c != p.x.Floor && c != p.x.Floor + 1) || (r != p.y.Floor && r != p.y.Floor + 1)
    ensures Weight(p, qm, r, c) == 0.0
  {
  }

  /** The loop over the particles of a tile. */
  method DepositTile(g: Grid, ppart: array2<Particle>, npp: nat, k: nat, qm: real) returns (sq: array2<real>)
    requires g.Valid() && k < g.Count() && k < ppart.Length0 && npp <= ppart.Length1
             && SortedRow(g, k, Row(ppart, k), npp)
    requires AccumulatorFits(g)
    ensures fresh(sq) && sq.Length0 == g.my + 1 && sq.Length1 == g.mx + 1
    ensures forall b, a | 0 <= b <= g.my && 0 <= a <= g.mx ::
              sq[b, a] == Density(Row(ppart, k)[..npp], qm, b + Edge(TileY(g, k), g.my), a + Edge(TileX(g, k), g.mx))
  {
    hide Weight, InPiece;
    var noff := k / g.mx1;
    var moff := g.my * noff;
    noff := g.mx * (k - g.mx1 * noff);
    EdgeIs(TileX(g, k), g.mx);
    EdgeIs(TileY(g, k), g.my);
    TileParts(g, k);
    sq := new real[g.my + 1, g.mx + 1];
    ClearAccumulator(sq);
    ghost var s := Row(ppart, k);
    assert s[..0] == [];
    for j := 0 to npp
      invariant forall b, a | 0 <= b <= g.my && 0 <= a <= g.mx :: sq[b, a] == Density(s[..j], qm, b + moff, a + noff)
    {
      assert InTile(g, k, s[j]);
      HatReaches(s[j].x, TileX(g, k), g.mx, g.nx, g.mx1, g.nx + 1, 0.0, 0);
      HatReaches(s[j].y, TileY(g, k), g.my, g.ny, g.my1, g.ny + 1, 0.0, 0);
      DepositParticle(sq, ppart[k, j], qm, noff, moff);
      assert s[..j + 1] == s[..j] + [s[j]];
      ghost var before, after := s[..j], s[..j + 1];
      forall r, c ensures Density(after, qm, r, c) == Density(before, qm, r, c) + Weight(s[j], qm, r, c) {
        DensitySnoc(before, s[j], qm, r, c);
      }
    }
  }

  // ------------------------------------------------ from the accumulator to the grid

  /** The points strictly inside the tile, which are updated without `atomic`. */
  predicate Interior(r: int, c: int, noff: int, moff: int, nn: int, mm: int) {
    noff + 1 <= c < noff + nn && moff + 1 <= r < moff + mm
  }

  method AddInterior(q: array2<real>, sq: array2<real>, noff: nat, moff: nat, nn: int, mm: int)
    requires q != sq && noff + nn <= q.Length1 && moff + mm <= q.Length0 && nn <= sq.Length1 && mm <= sq.Length0
             && nn >= 1 && mm >= 1
    modifies q
    ensures forall r, c | 0 <= r < q.Length0 && 0 <= c < q.Length1 ::
              q[r, c] == old(q[r, c]) + if Interior(r, c, noff, moff, nn, mm) then sq[r - moff, c - noff] else 0.0
  {
    for j := 1 to mm
      invariant forall r, c | 0 <= r < q.Length0 && 0 <= c < q.Length1 ::
          q[r, c] == old(q[r, c]) + if Interior(r, c, noff, moff, nn, j) then sq[r - moff, c - noff] else 0.0
    {
      for i := 1 to nn
        invariant forall r, c | 0 <= r < q.Length0 && 0 <= c < q.Length1 ::
                    q[r, c] == old(q[r, c]) +
                               if Interior(r, c, noff, moff, nn, j) || (r == moff + j && noff + 1 <= c < noff + i)
                               then sq[r - moff, c - noff] else 0.0
      {
        q[j + moff, i + noff] := q[j + moff, i + noff] + sq[j, i];
      }
    }
  }

  /** The bottom row of the accumulator and, if the grid goes that far, the top one; the corners are
      left to the columns. */
  method AddRows(q: array2<real>, sq: array2<real>, noff: nat, moff: nat, nn: int, mm: int, my: int)
    requires q != sq && noff + nn <= q.Length1 && moff + mm <= q.Length0 && nn <= sq.Length1
             && 1 <= mm <= my + 1 == sq.Length0 && nn >= 1 && my >= 1
    modifies q
    ensures forall r, c | 0 <= r < q.Length0 && 0 <= c < q.Length1 ::
              q[r, c] == old(q[r, c]) + if noff + 1 <= c < noff + nn && (r == moff || (mm > my && r == moff + my))
              then sq[r - moff, c - noff] else 0.0
  {
    for i := 1 to nn
      invariant forall r, c | 0 <= r < q.Length0 && 0 <= c < q.Length1 ::
          q[r, c] == old(q[r, c]) + if noff + 1 <= c < noff + i && (r == moff || (mm > my && r == moff + my))
          then sq[r - moff, c - noff] else 0.0
    {
      q[moff, i + noff] := q[moff, i + noff] + sq[0, i];
      if mm > my {
        q[mm + moff - 1, i + noff] := q[mm + moff - 1, i + noff] + sq[mm - 1, i];
      }
    }
  }

  /** The leftmost column and, if the grid goes that far, the rightmost one. */
  method AddColumns(q: array2<real>, sq: array2<real>, noff: nat, moff: nat, nn: int, mm: int, mx: int)
    requires q != sq && noff + nn <= q.Length1 && moff + mm <= q.Length0 && 1 <= nn <= mx + 1 == sq.Length1
             && 0 <= mm <= sq.Length0 && mx >= 1
    modifies q
    ensures forall r, c | 0 <= r < q.Length0 && 0 <= c < q.Length1 ::
              q[r, c] == old(q[r, c]) + if moff <= r < moff + mm && (c == noff || (nn > mx && c == noff + mx))
              then sq[r - moff, c - noff] else 0.0
  {
    for j := 0 to mm
      invariant forall r, c | 0 <= r < q.Length0 && 0 <= c < q.Length1 ::
          q[r, c] == old(q[r, c]) + if moff <= r < moff + j && (c == noff || (nn > mx && c == noff + mx))
          then sq[r - moff, c - noff] else 0.0
    {
      q[j + moff, noff] := q[j + moff, noff] + sq[j, 0];
      if nn > mx {
        q[j + moff, nn + noff - 1] := q[j + moff, nn + noff - 1] + sq[j, nn - 1];
      }
    }
  }

  /** Every place of the accumulator that belongs to the grid is added exactly once, in full and in
      truncated tiles alike. */
  method AddTile(q: array2<real>, sq: array2<real>, noff: nat, moff: nat, mx: int, my: int)
    requires q != sq && mx >= 1 && my >= 1 && sq.Length0 == my + 1 && sq.Length1 == mx + 1 && noff < q.Length1
             && moff < q.Length0
    modifies q
    ensures forall r, c | 0 <= r < q.Length0 && 0 <= c < q.Length1 ::
              q[r, c] == old(q[r, c]) + if Reaches(c, noff, mx, q.Length1) && Reaches(r, moff, my, q.Length0)
              then sq[r - moff, c - noff] else 0.0
  {
    var nxv, nyv := q.Length1, q.Length0;
    var nn := nxv - noff;
    var mm := nyv - moff;
    nn := if mx < nn then mx else nn;
    mm := if my < mm then my else mm;
    AddInterior(q, sq, noff, moff, nn, mm);
    mm := nyv - moff;
    mm := if my + 1 < mm then my + 1 else mm;
    AddRows(q, sq, noff, moff, nn, mm, my);
    nn := nxv - noff;
    nn := if mx + 1 < nn then mx + 1 else nn;
    AddColumns(q, sq, noff, moff, nn, mm, mx);
  }

  /** The plain updates cannot race: a point strictly inside one tile is reached by no other. */
  lemma InteriorIsPrivate(g: Grid, k: int, h: int, nxv: int, nyv: int, r: int, c: int)
    requires g.Valid() && 0 <= k < g.Count() && 0 <= h < g.Count() && k != h
    requires Interior(r, c, Edge(TileX(g, k), g.mx), Edge(TileY(g, k), g.my), g.mx, g.my)
    ensures !(Reaches(c, Edge(TileX(g, h), g.mx), g.mx, nxv) && Reaches(r, Edge(TileY(g, h), g.my), g.my, nyv))
  {
    TileParts(g, k);
    TileParts(g, h);
    Apart(TileX(g, k), TileX(g, h), g.mx);
    Apart(TileY(g, k), TileY(g, h), g.my);
  }

  lemma Apart(a: int, b: int, m: int)
    requires m >= 1
    ensures a < b ==> Edge(a, m) + m <= Edge(b, m)
    ensures b < a ==> Edge(b, m) + m <= Edge(a, m)
  {
    Distribute(a, b - a, m);
    Distribute(b, a - b, m);
    if a < b { MulGrows(b - a, m); }
    if b < a { MulGrows(a - b, m); }
  }

  // ------------------------------------------------ all tiles

  /** The charge of the particles of the first k tiles at grid point (r, c). */
  function GridDensity(rows: Contents, n: seq<int>, k: nat, qm: real, r: int, c: int): real
    requires k <= |rows| == |n|
  {
    if k == 0 then 0.0 else GridDensity(rows, n, k - 1, qm, r, c) + Density(TileOf(rows, n, k - 1), qm, r, c)
  }

  /** The particles of tile k. */
  function TileOf(rows: Contents, n: seq<int>, k: nat): seq<Particle>
    requires k < |rows| == |n|
  {
    if 0 <= n[k] <= |rows[k]| then rows[k][..n[k]] else []
  }

  /** One tile of the outer loop: its density is added to the whole grid. */
  method PostTile(g: Grid, ppart: array2<Particle>, npp: nat, k: nat, q: array2<real>, qm: real)
    requires g.Valid() && k < g.Count() && k < ppart.Length0 && npp <= ppart.Length1
             && SortedRow(g, k, Row(ppart, k), npp)
    requires AccumulatorFits(g)
    requires q.Length1 >= g.nx + 1 && q.Length0 >= g.ny + 1
    modifies q
    ensures forall r, c | 0 <= r < q.Length0 && 0 <= c < q.Length1 ::
              q[r, c] == old(q[r, c]) + Density(Row(ppart, k)[..npp], qm, r, c)
  {
    hide SortedRow, InTile, Density, Reaches, TileX, TileY, Edge;
    var sq := DepositTile(g, ppart, npp, k, qm);
    var noff := k / g.mx1;
    var moff := g.my * noff;
    noff := g.mx * (k - g.mx1 * noff);
    Offsets(g, k);
    AccumulatorIsDensity(g, Row(ppart, k), npp, k, qm, sq, q.Length1, q.Length0);
    AddTile(q, sq, noff, moff, g.mx, g.my);
  }

  lemma Offsets(g: Grid, k: int)
    requires g.Valid() && 0 <= k < g.Count()
    ensures g.mx * (k - g.mx1 * (k / g.mx1)) == Edge(TileX(g, k), g.mx) && g.my * (k / g.mx1) == Edge(TileY(g, k), g.my)
    ensures 0 <= Edge(TileX(g, k), g.mx) < g.nx && 0 <= Edge(TileY(g, k), g.my) < g.ny
  {
    hide InPiece, UpperEdge, Axis;
    TileParts(g, k);
    AxisFacts(g.nx, g.mx, g.mx1, TileX(g, k));
    AxisFacts(g.ny, g.my, g.my1, TileY(g, k));
    EdgeIs(TileX(g, k), g.mx);
    EdgeIs(TileY(g, k), g.my);
  }

  /** On the points that the tile reaches the accumulator holds the density, elsewhere there is none. */
  lemma AccumulatorIsDensity(g: Grid, row: seq<Particle>, npp: nat, k: nat, qm: real, sq: array2<real>, nxv: int,
                             nyv: int)
    requires g.Valid() && k < g.Count() && npp <= |row| && SortedRow(g, k, row, npp) && nxv >= g.nx + 1
             && nyv >= g.ny + 1
    requires sq.Length0 == g.my + 1 && sq.Length1 == g.mx + 1
    requires forall b, a | 0 <= b <= g.my && 0 <= a <= g.mx ::
               sq[b, a] == Density(row[..npp], qm, b + Edge(TileY(g, k), g.my), a + Edge(TileX(g, k), g.mx))
    ensures var noff, moff := Edge(TileX(g, k), g.mx), Edge(TileY(g, k), g.my);
            forall r, c | 0 <= r < nyv && 0 <= c < nxv ::
              Density(row[..npp], qm, r, c)
              == if Reaches(c, noff, g.mx, nxv) && Reaches(r, moff, g.my, nyv) then sq[r - moff, c - noff] else 0.0
  {
    hide SortedRow, InTile, Density, TileX, TileY, Edge;
    var noff, moff := Edge(TileX(g, k), g.mx), Edge(TileY(g, k), g.my);
    forall r, c | 0 <= r < nyv && 0 <= c < nxv
      ensures Density(row[..npp], qm, r, c)
           == if Reaches(c, noff, g.mx, nxv) && Reaches(r, moff, g.my, nyv) then sq[r - moff, c - noff] else 0.0
    {
      TileDensity(g, row[..npp], row, npp, k, qm, nxv, nyv, r, c);
      if Reaches(c, noff, g.mx, nxv) && Reaches(r, moff, g.my, nyv) {
        var b, a := r - moff, c - noff;
        assert sq[b, a] == Density(row[..npp], qm, b + moff, a + noff);
      }
    }
  }

  lemma TileDensity(g: Grid, s: seq<Particle>, row: seq<Particle>, npp: nat, k: int, qm: real, nxv: int, nyv: int,
                    r: int, c: int)
    requires g.Valid() && 0 <= k < g.Count() && nxv >= g.nx + 1 && nyv >= g.ny + 1 && npp <= |row| && s == row[..npp]
             && SortedRow(g, k, row, npp)
    ensures !(Reaches(c, Edge(TileX(g, k), g.mx), g.mx, nxv) && Reaches(r, Edge(TileY(g, k), g.my), g.my, nyv)) ==>
              Density(s, qm, r, c) == 0.0
  {
    hide InTile, Reaches;
    if !(Reaches(c, Edge(TileX(g, k), g.mx), g.mx, nxv) && Reaches(r, Edge(TileY(g, k), g.my), g.my, nyv)) {
      DensityReaches(g, s, k, qm, nxv, nyv, r, c);
    }
  }

  /** cgppost2l: every grid point receives the interpolated charge of all particles. */
  method Cgppost2l(g: Grid, ppart: array2<Particle>, kpic: array<int>, q: array2<real>, qm: real)
    requires g.Valid() && g.Count() == ppart.Length0 == kpic.Length && q.Length1 >= g.nx + 1 && q.Length0 >= g.ny + 1
    requires AccumulatorFits(g)
    requires Filled(g, Rows(ppart), kpic[..]) && SortedTiles(g, Rows(ppart), kpic[..])
    modifies q
    ensures forall r, c | 0 <= r < q.Length0 && 0 <= c < q.Length1 ::
              q[r, c] == old(q[r, c]) + GridDensity(Rows(ppart), kpic[..], kpic.Length, qm, r, c)
  {
    hide SortedRow, Row;
    ghost var rows, n := Rows(ppart), kpic[..];
    for k := 0 to kpic.Length
      invariant forall r, c | 0 <= r < q.Length0 && 0 <= c < q.Length1 ::
          q[r, c] == old(q[r, c]) + GridDensity(rows, n, k, qm, r, c)
    {
      assert SortedRow(g, k, rows[k], n[k]);
      PostTile(g, ppart, kpic[k], k, q, qm);
    }
  }

  // ------------------------------------------------ sums over the grid

  function LineTotal(f: int -> real, w: nat): real {
    if w == 0 then 0.0 else LineTotal(f, w - 1) + f(w - 1)
  }

  function GridTotal(f: (int, int) -> real, h: nat, w: nat): real {
    if h == 0 then 0.0 else GridTotal(f, h - 1, w) + LineTotal(c => f(h - 1, c), w)
  }

  lemma {:induction false} LineTotalAdd(f: int -> real, f': int -> real, s: int -> real, w: nat)
    requires forall c | 0 <= c < w :: s(c) == f(c) + f'(c)
    ensures LineTotal(s, w) == LineTotal(f, w) + LineTotal(f', w)
  {
    if w > 0 { LineTotalAdd(f, f', s, w - 1); }
  }

  lemma {:induction false} GridTotalAdd(f: (int, int) -> real, f': (int, int) -> real, s: (int, int) -> real, h: nat,
                                        w: nat)
    requires forall r, c | 0 <= r < h && 0 <= c < w :: s(r, c) == f(r, c) + f'(r, c)
    ensures GridTotal(s, h, w) == GridTotal(f, h, w) + GridTotal(f', h, w)
  {
    if h > 0 {
      GridTotalAdd(f, f', s, h - 1, w);
      LineTotalAdd(c => f(h - 1, c), c => f'(h - 1, c), c => s(h - 1, c), w);
    }
  }

  lemma {:induction false} LineTotalZero(f: int -> real, w: nat)
    requires forall c | 0 <= c < w :: f(c) == 0.0
    ensures LineTotal(f, w) == 0.0
  {
    if w > 0 { LineTotalZero(f, w - 1); }
  }

  lemma {:induction false} GridTotalZero(f: (int, int) -> real, h: nat, w: nat)
    requires forall r, c | 0 <= r < h && 0 <= c < w :: f(r, c) == 0.0
    ensures GridTotal(f, h, w) == 0.0
  {
    if h > 0 {
      GridTotalZero(f, h - 1, w);
      LineTotalZero(c => f(h - 1, c), w);
    }
  }

  lemma ProductSum(a: real, b: real, x: real)
    ensures (a + b) * x == a * x + b * x && x * (a + b) == x * a + x * b
  {
  }

  lemma {:induction false} LineTotalScale(f: int -> real, x: real, s: int -> real, w: nat)
    requires forall c | 0 <= c < w :: s(c) == f(c) * x
    ensures LineTotal(s, w) == LineTotal(f, w) * x
  {
    if w > 0 {
      LineTotalScale(f, x, s, w - 1);
      ProductSum(LineTotal(f, w - 1), f(w - 1), x);
    }
  }

  lemma GridTotalNext(f: (int, int) -> real, h: nat, w: nat)
    requires h > 0
    ensures GridTotal(f, h, w) == GridTotal(f, h - 1, w) + LineTotal(c => f(h - 1, c), w)
  {
  }

  lemma LineTotalNext(f: int -> real, w: nat)
    requires w > 0
    ensures LineTotal(f, w) == LineTotal(f, w - 1) + f(w - 1)
  {
  }

  lemma NoLines(f: (int, int) -> real, b: int -> real, total: real, w: nat)
    ensures GridTotal(f, 0, w) == 0.0 && LineTotal(b, 0) == 0.0 && total * 0.0 == 0.0
  {
  }

  /** A product of a function of the column and one of the row. */
  lemma {:induction false} GridTotalProduct(a: int -> real, b: int -> real, f: (int, int) -> real, h: nat, w: nat)
    requires forall r, c | 0 <= r < h && 0 <= c < w :: f(r, c) == a(c) * b(r)
    ensures GridTotal(f, h, w) == LineTotal(a, w) * LineTotal(b, h)
  {
    hide GridTotal, LineTotal;
    if h > 0 {
      GridTotalProduct(a, b, f, h - 1, w);
      LineTotalScale(a, b(h - 1), c => f(h - 1, c), w);
      GridTotalNext(f, h, w);
      LineTotalNext(b, h);
      ProductSum(LineTotal(b, h - 1), b(h - 1), LineTotal(a, w));
    } else {
      NoLines(f, b, LineTotal(a, w), w);
    }
  }

  /** The two shares of a particle add up to its weight. */
  lemma {:induction false} HatTotal(x: real, whole: real, w: nat)
    ensures LineTotal(c => Hat(x, whole, c), w) ==
            (if 0 <= x.Floor < w then Hat(x, whole, x.Floor) else 0.0) + if 0 <= x.Floor + 1 < w
            then Hat(x, whole, x.Floor + 1) else 0.0
  {
    if w > 0 {
      HatTotal(x, whole, w - 1);
      var short := LineTotal(c => Hat(x, whole, c), w - 1);
      assert LineTotal(c => Hat(x, whole, c), w) == short + Hat(x, whole, w - 1);
    }
  }

  lemma HatSum(x: real, whole: real)
    ensures Hat(x, whole, x.Floor) + Hat(x, whole, x.Floor + 1) == whole
  {
  }

  /** What makes the interpolation linear: only the two neighbouring points get a share, the shares
      add up to the whole, and their centre is the particle. */
  lemma HatIsLinear(x: real, whole: real, c: int)
    ensures var n := x.Floor;
            && Hat(x, whole, n) + Hat(x, whole, n + 1) == whole
            && n as real * Hat(x, whole, n) + (n + 1) as real * Hat(x, whole, n + 1) == whole * x
            && (c != n && c != n + 1 ==> Hat(x, whole, c) == 0.0)
  {
    var n := x.Floor;
    var d := whole * (x - n as real);
    ProductSum(n as real, 1.0, d);
    ProductSum(x - n as real, n as real, whole);
    ProductSum(whole - d, d, n as real);
  }

  /** One particle puts on a point the product of its shares along the two axes. */
  lemma DensityOfOne(p: Particle, qm: real, r: int, c: int)
    ensures Density([p], qm, r, c) == Hat(p.x, qm, c) * Hat(p.y, 1.0, r)
  {
    DensitySnoc([], p, qm, r, c);
    assert [] + [p] == [p];
  }

  lemma HatLine(x: real, whole: real, n: nat)
    requires 0.0 <= x < n as real
    ensures LineTotal(c => Hat(x, whole, c), n + 1) == whole
  {
    hide Hat, LineTotal;
    HatTotal(x, whole, n + 1);
    HatSum(x, whole);
  }

  lemma WeightTotal(p: Particle, qm: real, nx: nat, ny: nat)
    requires 0.0 <= p.x < nx as real && 0.0 <= p.y < ny as real
    ensures GridTotal((r, c) => Weight(p, qm, r, c), ny + 1, nx + 1) == qm
  {
    hide Hat, GridTotal, LineTotal;
    HatLine(p.x, qm, nx);
    HatLine(p.y, 1.0, ny);
    GridTotalProduct(c => Hat(p.x, qm, c), r => Hat(p.y, 1.0, r), (r, c) => Weight(p, qm, r, c), ny + 1, nx + 1);
  }

  lemma {:induction false} DensityTotal(s: seq<Particle>, qm: real, nx: nat, ny: nat)
    requires forall j | 0 <= j < |s| :: 0.0 <= s[j].x < nx as real && 0.0 <= s[j].y < ny as real
    ensures GridTotal((r, c) => Density(s, qm, r, c), ny + 1, nx + 1) == qm * |s| as real
  {
    hide Weight, GridTotal;
    if s == [] {
      GridTotalZero((r, c) => Density(s, qm, r, c), ny + 1, nx + 1);
    } else {
      var front, p := s[..|s| - 1], s[|s| - 1];
      DensityTotal(front, qm, nx, ny);
      WeightTotal(p, qm, nx, ny);
      GridTotalAdd((r, c) => Density(front, qm, r, c), (r, c) => Weight(p, qm, r, c), (r, c) => Density(s, qm, r, c),
                   ny + 1, nx + 1);
      ProductSum(|front| as real, 1.0, qm);
    }
  }

  function Particles(n: seq<int>, k: nat): int
    requires k <= |n|
  {
    if k == 0 then 0 else Particles(n, k - 1) + n[k - 1]
  }

  lemma {:induction false} GridDensityTotal(g: Grid, rows: Contents, n: seq<int>, k: nat, qm: real)
    requires Filled(g, rows, n) && SortedTiles(g, rows, n) && k <= |rows|
    ensures GridTotal((r, c) => GridDensity(rows, n, k, qm, r, c), g.ny + 1, g.nx + 1) == qm * Particles(n, k) as real
  {
    hide Density, Filled, SortedTiles, GridTotal;
    BoxSize(g, rows, n);
    if k == 0 {
      GridTotalZero((r, c) => GridDensity(rows, n, 0, qm, r, c), g.ny + 1, g.nx + 1);
    } else {
      GridDensityTotal(g, rows, n, k - 1, qm);
      TileTotal(g, rows, n, k - 1, qm);
      GridTotalAdd((r, c) => GridDensity(rows, n, k - 1, qm, r, c), (r, c) => Density(TileOf(rows, n, k - 1), qm, r, c),
                   (r, c) => GridDensity(rows, n, k, qm, r, c), g.ny + 1, g.nx + 1);
      CountTimes(qm, Particles(n, k - 1), n[k - 1]);
    }
  }

  lemma CountTimes(qm: real, a: int, b: int)
    ensures qm * (a + b) as real == qm * a as real + qm * b as real
  {
    ProductSum(a as real, b as real, qm);
  }

  lemma BoxSize(g: Grid, rows: Contents, n: seq<int>)
    requires Filled(g, rows, n)
    ensures g.nx >= 1 && g.ny >= 1 && |rows| == |n|
  {
  }

  lemma TileTotal(g: Grid, rows: Contents, n: seq<int>, k: nat, qm: real)
    requires Filled(g, rows, n) && SortedTiles(g, rows, n) && k < |rows|
    ensures g.nx >= 1 && g.ny >= 1
    ensures GridTotal((r, c) => Density(TileOf(rows, n, k), qm, r, c), g.ny + 1, g.nx + 1) == qm * n[k] as real
  {
    hide Density, GridTotal, InTile;
    RowInBox(g, k, rows[k], n[k]);
    DensityTotal(TileOf(rows, n, k), qm, g.nx, g.ny);
  }

  lemma RowInBox(g: Grid, k: nat, row: seq<Particle>, n: int)
    requires g.Valid() && k < g.Count() && SortedRow(g, k, row, n) && 0 <= n
    ensures forall j | 0 <= j < n :: 0.0 <= row[j].x < g.nx as real && 0.0 <= row[j].y < g.ny as real
  {
    TileParts(g, k);
    AxisFacts(g.nx, g.mx, g.mx1, TileX(g, k));
    AxisFacts(g.ny, g.my, g.my1, TileY(g, k));
    forall j | 0 <= j < n ensures 0.0 <= row[j].x < g.nx as real && 0.0 <= row[j].y < g.ny as real {
      assert InTile(g, k, row[j]);
    }
  }

  // ------------------------------------------------ folding the guard row and column

  /** The field after the guard column nx and the guard row ny have been added to column and row 0. */
  function Folded(f: (int, int) -> real, nx: int, ny: int): (int, int) -> real {
    (r: int, c: int) =>
      f(r, c) + (if c == 0 then f(r, nx) else 0.0) + (if r == 0 then f(ny, c) else 0.0)
      + if r == 0 && c == 0 then f(ny, nx) else 0.0
  }

  function Field(m: seq<seq<real>>): (int, int) -> real {
    (r: int, c: int) => if 0 <= r < |m| && 0 <= c < |m[r]| then m[r][c] else 0.0
  }

  lemma {:induction false} GridIsLines(f: (int, int) -> real, h: nat, w: nat)
    ensures GridTotal(f, h, w) == LineTotal(r => LineTotal(c => f(r, c), w), h)
  {
    if h > 0 { GridIsLines(f, h - 1, w); }
  }

  lemma ModSmall(k: int, n: int)
    requires 0 <= k < n
    ensures k % n == k && n % n == 0
  {
  }

  /** A sum over the places below w that agree with c modulo n. */
  lemma {:induction false} LinePick(f: int -> real, s: int -> real, n: nat, c: int, w: nat)
    requires 0 <= c < n && w <= n && forall k | 0 <= k < w :: s(k) == if k % n == c then f(k) else 0.0
    ensures LineTotal(s, w) == if c < w then f(c) else 0.0
  {
    if w > 0 {
      LinePick(f, s, n, c, w - 1);
      ModSmall(w - 1, n);
    }
  }

  /** And with the guard place n. */
  lemma LinePickGuard(f: int -> real, s: int -> real, n: nat, c: int)
    requires 0 <= c < n && forall k | 0 <= k <= n :: s(k) == if k % n == c then f(k) else 0.0
    ensures LineTotal(s, n + 1) == f(c) + if c == 0 then f(n) else 0.0
  {
    LinePick(f, s, n, c, n);
    LineLonger(s, n);
    ModSmall(c, n);
  }

  /** Folding is periodic: a point gets what lies at all points that are the same modulo nx and ny. */
  lemma FoldedIsPeriodic(f: (int, int) -> real, nx: nat, ny: nat, r: int, c: int)
    requires 0 <= r < ny && 0 <= c < nx
    ensures Folded(f, nx, ny)(r, c) ==
            GridTotal((r', c') => if r' % ny == r && c' % nx == c then f(r', c') else 0.0, ny + 1, nx + 1)
  {
    var picked := (r': int, c': int) => if r' % ny == r && c' % nx == c then f(r', c') else 0.0;
    var lines := (r': int) => LineTotal(c' => picked(r', c'), nx + 1);
    var wanted := (r': int) => f(r', c) + if c == 0 then f(r', nx) else 0.0;
    GridIsLines(picked, ny + 1, nx + 1);
    forall r' | 0 <= r' <= ny ensures lines(r') == if r' % ny == r then wanted(r') else 0.0 {
      if r' % ny == r {
        LinePickGuard(c' => f(r', c'), c' => picked(r', c'), nx, c);
      } else {
        LineTotalZero(c' => picked(r', c'), nx + 1);
      }
    }
    LinePickGuard(wanted, lines, ny, r);
    LineTotalSame(r' => LineTotal(c' => picked(r', c'), nx + 1), lines, ny + 1);
  }

  /** The loops of caguard2l. */
  method FoldGuards(q: array2<real>, nx: nat, ny: nat)
    requires 1 <= nx < q.Length1 && 1 <= ny < q.Length0
    modifies q
    ensures forall r, c | 0 <= r < ny && 0 <= c < nx :: q[r, c] == Folded(Field(old(Rows(q))), nx, ny)(r, c)
    ensures forall r, c | 0 <= r <= ny && 0 <= c <= nx && (r == ny || c == nx) :: q[r, c] == 0.0
    ensures forall r, c | 0 <= r < q.Length0 && 0 <= c < q.Length1 && (r > ny || c > nx) :: q[r, c] == old(q[r, c])
  {
    ghost var f := Field(Rows(q));
    for k := 0 to ny
      invariant forall r, c | 0 <= r < q.Length0 && 0 <= c < q.Length1 ::
          q[r, c] == if r < k && c == 0 then f(r, 0) + f(r, nx) else if r < k && c == nx then 0.0 else f(r, c)
    {
      q[k, 0] := q[k, 0] + q[k, nx];
      q[k, nx] := 0.0;
    }
    for j := 0 to nx
      invariant forall r, c | 0 <= r < q.Length0 && 0 <= c < q.Length1 ::
          var side := if r < ny && c == 0 then f(r, 0) + f(r, nx) else if r < ny && c == nx then 0.0
                      else f(r, c);
          q[r, c] == if r == 0 && c < j then side + f(ny, c) else if r == ny && c < j then 0.0 else side
    {
      q[0, j] := q[0, j] + q[ny, j];
      q[ny, j] := 0.0;
    }
    q[0, 0] := q[0, 0] + q[ny, nx];
    q[ny, nx] := 0.0;
  }

  /** caguard2l: a point of the grid ends with what lay at all points that are the same modulo nx and
      ny, and the guards are cleared. */
  method Caguard2l(q: array2<real>, nx: nat, ny: nat)
    requires 1 <= nx < q.Length1 && 1 <= ny < q.Length0
    modifies q
    ensures forall r, c | 0 <= r < ny && 0 <= c < nx :: q[r, c] == Folded(Field(old(Rows(q))), nx, ny)(r, c)
    ensures var f := Field(old(Rows(q)));
            forall r, c | 0 <= r < ny && 0 <= c < nx ::
              q[r, c] == GridTotal((r', c') => if r' % ny == r && c' % nx == c then f(r', c') else 0.0, ny + 1, nx + 1)
    ensures forall r, c | 0 <= r <= ny && 0 <= c <= nx && (r == ny || c == nx) :: q[r, c] == 0.0
    ensures forall r, c | 0 <= r < q.Length0 && 0 <= c < q.Length1 && (r > ny || c > nx) :: q[r, c] == old(q[r, c])
  {
    hide Folded, GridTotal;
    ghost var f := Field(Rows(q));
    FoldGuards(q, nx, ny);
    forall r, c | 0 <= r < ny && 0 <= c < nx
      ensures q[r, c] == GridTotal((r', c') => if r' % ny == r && c' % nx == c then f(r', c') else 0.0, ny + 1, nx + 1)
    {
      FoldedIsPeriodic(f, nx, ny, r, c);
    }
  }

  /** A row with the guard value added to its first place. */
  lemma {:induction false} LineFold(f: int -> real, s: int -> real, extra: real, w: nat)
    requires w >= 1 && forall c | 0 <= c < w :: s(c) == f(c) + if c == 0 then extra else 0.0
    ensures LineTotal(s, w) == LineTotal(f, w) + extra
  {
    if w > 1 { LineFold(f, s, extra, w - 1); }
    else { assert LineTotal(s, 0) == 0.0 && LineTotal(f, 0) == 0.0; }
  }

  /** Rows 1 to h - 1 take their guard value, row 0 that of the guard row as well. */
  lemma {:induction false} FoldRows(f: (int, int) -> real, nx: nat, ny: nat, h: nat)
    requires nx >= 1 && 1 <= h <= ny
    ensures GridTotal(Folded(f, nx, ny), h, nx) == GridTotal(f, h, nx + 1) + LineTotal(c => f(ny, c), nx + 1)
  {
    var s := Folded(f, nx, ny);
    var last := h - 1;
    if h == 1 {
      LineTotalAdd(c => f(0, c), c => f(ny, c), c => f(0, c) + f(ny, c), nx);
      LineFold(c => f(0, c) + f(ny, c), c => s(0, c), f(0, nx) + f(ny, nx), nx);
      assert GridTotal(s, 0, nx) == 0.0 && GridTotal(f, 0, nx + 1) == 0.0;
    } else {
      FoldRows(f, nx, ny, last);
      LineFold(c => f(last, c), c => s(last, c), f(last, nx), nx);
    }
    LineLonger(c => f(last, c), nx);
    LineLonger(c => f(ny, c), nx);
  }

  lemma LineLonger(f: int -> real, w: nat)
    ensures LineTotal(f, w + 1) == LineTotal(f, w) + f(w)
  {
  }

  /** caguard2l loses nothing: the sum over the grid is the sum with the guards before. */
  lemma FoldConserves(f: (int, int) -> real, nx: nat, ny: nat)
    requires nx >= 1 && ny >= 1
    ensures GridTotal(Folded(f, nx, ny), ny, nx) == GridTotal(f, ny + 1, nx + 1)
  {
    FoldRows(f, nx, ny, ny);
  }

  lemma {:induction false} LineTotalSame(f: int -> real, s: int -> real, w: nat)
    requires forall c | 0 <= c < w :: s(c) == f(c)
    ensures LineTotal(s, w) == LineTotal(f, w)
  {
    if w > 0 { LineTotalSame(f, s, w - 1); }
  }

  lemma {:induction false} GridTotalSame(f: (int, int) -> real, s: (int, int) -> real, h: nat, w: nat)
    requires forall r, c | 0 <= r < h && 0 <= c < w :: s(r, c) == f(r, c)
    ensures GridTotal(s, h, w) == GridTotal(f, h, w)
  {
    if h > 0 {
      GridTotalSame(f, s, h - 1, w);
      LineTotalSame(c => f(h - 1, c), c => s(h - 1, c), w);
    }
  }

  /** Main result: deposited from zero and folded, the charge on the grid is qm for each particle. */
  lemma ChargeIsConserved(g: Grid, rows: Contents, n: seq<int>, qm: real, deposited: (int, int) -> real,
                          folded: (int, int) -> real)
    requires Filled(g, rows, n) && SortedTiles(g, rows, n)
    requires forall r, c | 0 <= r <= g.ny && 0 <= c <= g.nx :: deposited(r, c) == GridDensity(rows, n, |n|, qm, r, c)
    requires forall r, c | 0 <= r < g.ny && 0 <= c < g.nx :: folded(r, c) == Folded(deposited, g.nx, g.ny)(r, c)
    ensures GridTotal(folded, g.ny, g.nx) == qm * Particles(n, |n|) as real
  {
    hide Filled, SortedTiles, GridDensity, GridTotal, Folded;
    BoxSize(g, rows, n);
    GridTotalSame(Folded(deposited, g.nx, g.ny), folded, g.ny, g.nx);
    FoldConserves(deposited, g.nx, g.ny);
    GridTotalSame((r, c) => GridDensity(rows, n, |n|, qm, r, c), deposited, g.ny + 1, g.nx + 1);
    GridDensityTotal(g, rows, n, |n|, qm);
  }

  /** The charge step of the main program: the grid is cleared, all tiles are deposited, the guards
      are folded. */
  method DepositCharge(g: Grid, ppart: array2<Particle>, kpic: array<int>, q: array2<real>, qm: real)
    requires g.Valid() && g.Count() == ppart.Length0 == kpic.Length && q.Length1 >= g.nx + 1 && q.Length0 >= g.ny + 1
    requires AccumulatorFits(g)
    requires Filled(g, Rows(ppart), kpic[..]) && SortedTiles(g, Rows(ppart), kpic[..])
    modifies q
    ensures GridTotal(Field(Rows(q)), g.ny, g.nx) == qm * Particles(kpic[..], kpic.Length) as real
    ensures var rows, n := Rows(ppart), kpic[..];
            forall r, c | 0 <= r < g.ny && 0 <= c < g.nx ::
              q[r, c] == GridTotal((r', c') => if r' % g.ny == r && c' % g.nx == c
                                     then GridDensity(rows, n, kpic.Length, qm, r', c') else 0.0,
                                   g.ny + 1, g.nx + 1)
    ensures forall r, c | 0 <= r <= g.ny && 0 <= c <= g.nx && (r == g.ny || c == g.nx) :: q[r, c] == 0.0
  {
    hide Filled, SortedTiles, GridDensity, GridTotal, Folded;
    ghost var rows, n := Rows(ppart), kpic[..];
    ClearAccumulator(q);
    Cgppost2l(g, ppart, kpic, q, qm);
    ghost var deposited := Field(Rows(q));
    Caguard2l(q, g.nx, g.ny);
    ChargeIsConserved(g, rows, n, qm, deposited, Field(Rows(q)));
    forall r, c | 0 <= r < g.ny && 0 <= c < g.nx
      ensures q[r, c] == GridTotal((r', c') => if r' % g.ny == r && c' % g.nx == c
                                     then GridDensity(rows, n, kpic.Length, qm, r', c') else 0.0,
                                   g.ny + 1, g.nx + 1)
    {
      GridTotalSame((r', c') => if r' % g.ny == r && c' % g.nx == c then deposited(r', c') else 0.0,
                    (r', c') => if r' % g.ny == r && c' % g.nx == c
                      then GridDensity(rows, n, kpic.Length, qm, r', c') else 0.0, g.ny + 1, g.nx + 1);
    }
  }
}
