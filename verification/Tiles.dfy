/** Tiles of the particle code: their edges, their neighbours, and where a particle that leaves
    one of them ends up. */
module Tiles {
  import opened Blocks

  datatype Particle = Particle(x: real, y: real, vx: real, vy: real)

  /** nx by ny grid points in tiles of mx by my; mx1 by my1 tiles. */
  datatype Grid = Grid(nx: int, ny: int, mx: int, my: int, mx1: int, my1: int) {
    predicate Valid() {
      Axis(nx, mx, mx1) && Axis(ny, my, my1)
    }

    /** The number of tiles, as a value to index arrays with. */
    function Count(): int { mx1 * my1 }
  }

  /** n points in pieces of m: there are (n - 1) / m + 1 pieces. */
  predicate Axis(n: int, m: int, pieces: int) {
    n >= 1 && m >= 1 && pieces >= 1 && pieces == (n - 1) / m + 1
  }

  function Edge(c: int, m: int): int { c * m }

  lemma EdgeIs(c: int, m: int)
    ensures m * c == Edge(c, m)
  {
  }

  /** The upper edge of piece c; the last piece may be short. */
  function UpperEdge(c: int, m: int, n: int): int {
    Edge(c, m) + if m < n - Edge(c, m) then m else n - Edge(c, m)
  }

  ghost predicate InPiece(x: real, c: int, m: int, n: int) {
    Edge(c, m) as real <= x < UpperEdge(c, m, n) as real
  }

  lemma AxisFacts(n: int, m: int, pieces: int, c: int)
    requires Axis(n, m, pieces) && 0 <= c < pieces
    ensures pieces >= 1 && 0 <= Edge(c, m) < UpperEdge(c, m, n) <= n
    ensures Edge(0, m) == 0 && UpperEdge(pieces - 1, m, n) == n
    ensures c < pieces - 1 ==> UpperEdge(c, m, n) == Edge(c + 1, m)
    ensures c > 0 ==> UpperEdge(c - 1, m, n) == Edge(c, m)
  {
    var last := pieces - 1;
    QuotientIs(n - 1, m, last);
    Distribute(c, 1, m);
    Distribute(c, -1, m);
    MulCompare(0, c, m);
    MulCompare(c, last, m);
    MulCompare(c + 1, last, m);
  }

  // ------------------------------------------------ leaving a piece

  /** The new coordinate and the side a particle leaves by: 1 down, 2 up, 0 for staying. */
  datatype AxisMove = AxisMove(pos: real, side: int)

  /** Rounding to a machine number: monotone, and exact on the integers of the grid. */
  ghost predicate Rounding(round: real -> real, n: int) {
    && (forall x, y: real | x <= y :: round(x) <= round(y))
    && forall x: real | 0.0 <= x <= n as real && x == x.Floor as real :: round(x) == x
  }

  /** One coordinate in the first loop of cpporder2l, with the periodic wrap; adding n may round
      up to n itself, and then the particle is put at 0. */
  function MoveAxis(x: real, lo: int, hi: int, n: int, round: real -> real): AxisMove {
    if x >= hi as real then AxisMove(if x >= n as real then x - n as real else x, 2)
    else if x < lo as real then
      if x < 0.0 then
        var w := round(x + n as real);
        if w < n as real then AxisMove(w, 1) else AxisMove(0.0, 0)
      else AxisMove(x, 1)
    else AxisMove(x, 0)
  }

  function Next(c: int, pieces: int): int { if c + 1 >= pieces then c + 1 - pieces else c + 1 }

  function Prev(c: int, pieces: int): int { if c - 1 < 0 then c - 1 + pieces else c - 1 }

  /** Where a particle goes that leaves piece c by a side. */
  function ToPiece(c: int, side: int, pieces: int): int {
    if side == 1 then Prev(c, pieces) else if side == 2 then Next(c, pieces) else c
  }

  /** Where the particles come from that enter piece c having left by a side. */
  function FromPiece(c: int, side: int, pieces: int): int {
    if side == 1 then Next(c, pieces) else if side == 2 then Prev(c, pieces) else c
  }

  lemma FromToPiece(c: int, side: int, pieces: int)
    requires 0 <= c < pieces
    ensures 0 <= FromPiece(c, side, pieces) < pieces && 0 <= ToPiece(c, side, pieces) < pieces
    ensures ToPiece(FromPiece(c, side, pieces), side, pieces) == c
    ensures FromPiece(ToPiece(c, side, pieces), side, pieces) == c
  {
  }

  /** x, not yet wrapped, lies in piece c or in a piece next to it. */
  ghost predicate Near(x: real, c: int, m: int, n: int, pieces: int) {
    && (if c == 0 then Edge(pieces - 1, m) - n else Edge(c - 1, m)) as real <= x
    && x < (if c == pieces - 1 then n + UpperEdge(0, m, n) else UpperEdge(c + 1, m, n)) as real
  }

  /** Rounding the wrapped coordinate does not take it below an edge of the grid. */
  lemma RoundedWrap(x: real, edge: int, n: int, round: real -> real)
    requires Rounding(round, n) && 0 <= edge <= n
    ensures edge as real <= x + n as real ==> edge as real <= round(x + n as real)
  {
    var e := edge as real;
    assert round(e) == e;
    if e <= x + n as real { assert round(e) <= round(x + n as real); }
  }

  /** A particle that has moved no further than the next piece lands in the piece that the side
      it leaves by says. */
  lemma Lands(x: real, c: int, m: int, n: int, pieces: int, round: real -> real)
    requires Axis(n, m, pieces) && 0 <= c < pieces && Rounding(round, n) && Near(x, c, m, n, pieces)
    ensures var move := MoveAxis(x, Edge(c, m), UpperEdge(c, m, n), n, round);
            0 <= move.side <= 2 && InPiece(move.pos, ToPiece(c, move.side, pieces), m, n)
  {
    hide Edge, UpperEdge, Rounding;
    AxisFacts(n, m, pieces, c);
    AxisFacts(n, m, pieces, 0);
    AxisFacts(n, m, pieces, pieces - 1);
    if c > 0 { AxisFacts(n, m, pieces, c - 1); }
    if c < pieces - 1 { AxisFacts(n, m, pieces, c + 1); }
    RoundedWrap(x, Edge(pieces - 1, m), n, round);
  }

  // ------------------------------------------------ leaving a tile

  function TileX(g: Grid, k: int): int
    requires g.mx1 >= 1
  {
    k - g.mx1 * (k / g.mx1)
  }

  function TileY(g: Grid, k: int): int
    requires g.mx1 >= 1
  {
    k / g.mx1
  }

  function TileAt(g: Grid, cx: int, cy: int): int { cx + cy * g.mx1 }

  lemma TileParts(g: Grid, k: int)
    requires g.Valid() && 0 <= k < g.Count()
    ensures 0 <= TileX(g, k) < g.mx1 && 0 <= TileY(g, k) < g.my1 && k == TileAt(g, TileX(g, k), TileY(g, k))
  {
    var w, q := g.mx1, k / g.mx1;
    QuotientIs(k, w, q);
    Commute(w, q);
    Commute(w, g.my1);
    MulCompare(g.my1, q, w);
    MulCompare(q, -1, w);
  }

  lemma PartsOfTile(g: Grid, cx: int, cy: int)
    requires g.Valid() && 0 <= cx < g.mx1 && 0 <= cy < g.my1
    ensures 0 <= TileAt(g, cx, cy) < g.Count()
    ensures TileX(g, TileAt(g, cx, cy)) == cx && TileY(g, TileAt(g, cx, cy)) == cy
  {
    var w := g.mx1;
    QuotientIs(cx + cy * w, w, cy);
    Commute(w, cy);
    Commute(w, g.my1);
    MulCompare(cy + 1, g.my1, w);
    Distribute(cy, 1, w);
    MulCompare(0, cy, w);
  }

  ghost predicate InTile(g: Grid, k: int, p: Particle)
    requires g.mx1 >= 1
  {
    InPiece(p.x, TileX(g, k), g.mx, g.nx) && InPiece(p.y, TileY(g, k), g.my, g.ny)
  }

  /** The tiles do not overlap. */
  lemma OneTileEach(g: Grid, k: int, h: int, p: Particle)
    requires g.Valid() && InTile(g, k, p) && InTile(g, h, p)
    ensures k == h
  {
    OnePieceEach(p.x, TileX(g, k), TileX(g, h), g.mx, g.nx);
    OnePieceEach(p.y, TileY(g, k), TileY(g, h), g.my, g.ny);
  }

  lemma OnePieceEach(x: real, c: int, d: int, m: int, n: int)
    requires m >= 1 && InPiece(x, c, m, n) && InPiece(x, d, m, n)
    ensures c == d
  {
    Distribute(c, 1, m);
    Distribute(d, 1, m);
    MulCompare(c + 1, d, m);
    MulCompare(d + 1, c, m);
  }

  /** p, with its coordinates not yet wrapped, is no further from tile k than a neighbour. */
  ghost predicate NearTile(g: Grid, k: int, p: Particle)
    requires g.mx1 >= 1
  {
    Near(p.x, TileX(g, k), g.mx, g.nx, g.mx1) && Near(p.y, TileY(g, k), g.my, g.ny, g.my1)
  }

  datatype Settled = Settled(p: Particle, dir: int)

  /** The wrapped particle and its direction: 0 for staying, else 1 to 8. */
  function Settle(g: Grid, k: int, round: real -> real, p: Particle): Settled
    requires g.mx1 >= 1
  {
    var x := MoveAxis(p.x, Edge(TileX(g, k), g.mx), UpperEdge(TileX(g, k), g.mx, g.nx), g.nx, round);
    var y := MoveAxis(p.y, Edge(TileY(g, k), g.my), UpperEdge(TileY(g, k), g.my, g.ny), g.ny, round);
    Settled(p.(x := x.pos, y := y.pos), x.side + 3 * y.side)
  }

  lemma SettleRange(g: Grid, k: int, round: real -> real, p: Particle)
    requires g.mx1 >= 1
    ensures 0 <= Settle(g, k, round, p).dir <= 8
  {
  }

  /** What the first loop stores for a particle: each coordinate as it was, or less by the length of
      the box beyond its upper end, or below 0 more by that length, rounded, and then 0 if the sum
      comes out as the length itself.  Velocities stay. */
  lemma SettleStores(g: Grid, k: int, round: real -> real, p: Particle)
    requires g.Valid() && 0 <= k < g.Count()
    ensures var q, nx, ny := Settle(g, k, round, p).p, g.nx as real, g.ny as real;
            && q.vx == p.vx && q.vy == p.vy
            && q.x == (if p.x >= nx then p.x - nx
                       else if p.x >= 0.0 then p.x
                       else if round(p.x + nx) < nx then round(p.x + nx) else 0.0)
            && q.y == (if p.y >= ny then p.y - ny
                       else if p.y >= 0.0 then p.y
                       else if round(p.y + ny) < ny then round(p.y + ny) else 0.0)
  {
    hide InPiece, Edge, UpperEdge, Axis, TileX, TileY;
    TileParts(g, k);
    AxisFacts(g.nx, g.mx, g.mx1, TileX(g, k));
    AxisFacts(g.ny, g.my, g.my1, TileY(g, k));
  }

  /** The same point of the periodic box: q is p moved by a whole number of lengths along each axis,
      apart from rounding, and q is in the box if p was no further than one length outside. */
  lemma SettledIsSamePoint(g: Grid, k: int, round: real -> real, p: Particle) returns (a: int, b: int)
    requires g.Valid() && 0 <= k < g.Count()
    requires -(g.nx as real) <= p.x < 2.0 * g.nx as real && -(g.ny as real) <= p.y < 2.0 * g.ny as real
    requires round(p.x + g.nx as real) == p.x + g.nx as real && round(p.y + g.ny as real) == p.y + g.ny as real
    ensures var q := Settle(g, k, round, p).p;
            && q.x == p.x + (a * g.nx) as real && 0.0 <= q.x < g.nx as real
            && q.y == p.y + (b * g.ny) as real && 0.0 <= q.y < g.ny as real
  {
    hide Settle;
    SettleStores(g, k, round, p);
    a := if p.x >= g.nx as real then -1 else if p.x >= 0.0 then 0 else 1;
    b := if p.y >= g.ny as real then -1 else if p.y >= 0.0 then 0 else 1;
  }

  /** The tile that particles of tile k with direction d go to, d counted from 0. */
  function Dest(g: Grid, k: int, d: int): int
    requires g.mx1 >= 1
  {
    TileAt(g, ToPiece(TileX(g, k), (d + 1) % 3, g.mx1), ToPiece(TileY(g, k), (d + 1) / 3, g.my1))
  }

  /** The tile from which particles with direction d come to tile k: the array ks. */
  function Source(g: Grid, k: int, d: int): int
    requires g.mx1 >= 1
  {
    TileAt(g, FromPiece(TileX(g, k), (d + 1) % 3, g.mx1), FromPiece(TileY(g, k), (d + 1) / 3, g.my1))
  }

  /** Each of the eight neighbour maps is a bijection of the tiles, with the opposite map as its
      inverse, for any number of tiles. */
  lemma SourceDestInverse(g: Grid, k: int, d: int)
    requires g.Valid() && 0 <= k < g.Count() && 0 <= d < 8
    ensures 0 <= Source(g, k, d) < g.Count() && 0 <= Dest(g, k, d) < g.Count()
    ensures Dest(g, Source(g, k, d), d) == k && Source(g, Dest(g, k, d), d) == k
  {
    hide TileX, TileY, TileAt, FromPiece, ToPiece;
    TileParts(g, k);
    var cx, cy, sx, sy := TileX(g, k), TileY(g, k), (d + 1) % 3, (d + 1) / 3;
    FromToPiece(cx, sx, g.mx1);
    FromToPiece(cy, sy, g.my1);
    PartsOfTile(g, FromPiece(cx, sx, g.mx1), FromPiece(cy, sy, g.my1));
    PartsOfTile(g, ToPiece(cx, sx, g.mx1), ToPiece(cy, sy, g.my1));
  }

  /** Where a settled particle lies: in its own tile if it stays, in the one its direction names
      if it goes. */
  lemma SettledInTile(g: Grid, k: int, round: real -> real, p: Particle)
    requires g.Valid() && 0 <= k < g.Count() && NearTile(g, k, p)
    requires Rounding(round, g.nx) && Rounding(round, g.ny)
    ensures var s := Settle(g, k, round, p);
            if s.dir == 0 then InTile(g, k, s.p) else 1 <= s.dir <= 8 && InTile(g, Dest(g, k, s.dir - 1), s.p)
  {
    hide TileX, TileY, TileAt, ToPiece, MoveAxis, Near, InPiece, Edge, UpperEdge;
    TileParts(g, k);
    var cx, cy := TileX(g, k), TileY(g, k);
    Lands(p.x, cx, g.mx, g.nx, g.mx1, round);
    Lands(p.y, cy, g.my, g.ny, g.my1, round);
    var x := MoveAxis(p.x, Edge(cx, g.mx), UpperEdge(cx, g.mx, g.nx), g.nx, round);
    var y := MoveAxis(p.y, Edge(cy, g.my), UpperEdge(cy, g.my, g.ny), g.ny, round);
    var dir := x.side + 3 * y.side;
    assert dir % 3 == x.side && dir / 3 == y.side;
    FromToPiece(cx, x.side, g.mx1);
    FromToPiece(cy, y.side, g.my1);
    PartsOfTile(g, ToPiece(cx, x.side, g.mx1), ToPiece(cy, y.side, g.my1));
    if dir == 0 {
      StaysHere(cx, g.mx1);
      StaysHere(cy, g.my1);
    }
  }

  lemma StaysHere(c: int, pieces: int)
    ensures ToPiece(c, 0, pieces) == c
  {
  }
}
