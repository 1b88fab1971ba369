/** What the particle sort keeps: no particle is lost or doubled, every particle ends up in its
    tile, and cppcheck2l then has nothing to report. */
module ParticleLaws {
  import opened Tiles
  import opened Holes
  import opened Reorder
  import opened Buffers
  import opened ParticleOrder

  // ------------------------------------------------ sums over tiles

  function SumAll(a: seq<multiset<Particle>>): multiset<Particle> {
    if a == [] then multiset{} else SumAll(a[..|a| - 1]) + a[|a| - 1]
  }

  lemma PartOfSum<T>(a: multiset<T>, b: multiset<T>, x: multiset<T>)
    ensures x <= a || x == b ==> x <= a + b
  {
  }

  /** Every tile is in the sum, with all its particles, and nothing else is. */
  lemma {:induction false} SumAllHolds(a: seq<multiset<Particle>>)
    ensures forall k | 0 <= k < |a| :: a[k] <= SumAll(a)
    ensures forall p | p in SumAll(a) :: exists k :: 0 <= k < |a| && p in a[k]
  {
    if a != [] {
      var front := a[..|a| - 1];
      SumAllHolds(front);
      var last := a[|a| - 1];
      forall k | 0 <= k < |a| ensures a[k] <= SumAll(a) {
        PartOfSum(SumAll(front), last, a[k]);
        if k < |front| { assert a[k] == front[k]; }
      }
      forall p | p in SumAll(a) ensures exists k :: 0 <= k < |a| && p in a[k] {
        assert p in SumAll(front) || p in last;
        if p in SumAll(front) {
          var k :| 0 <= k < |front| && p in front[k];
          assert p in a[k];
        }
      }
    }
  }

  lemma {:induction false} SumAllPlus(a: seq<multiset<Particle>>, b: seq<multiset<Particle>>,
                                      c: seq<multiset<Particle>>)
    requires |a| == |b| == |c| && forall k | 0 <= k < |a| :: c[k] == a[k] + b[k]
    ensures SumAll(c) == SumAll(a) + SumAll(b)
  {
    if a != [] {
      var m := |a| - 1;
      SumAllPlus(a[..m], b[..m], c[..m]);
    }
  }

  /** The sum over a set of tiles, taken in any order. */
  ghost function SumSet(s: set<int>, a: seq<multiset<Particle>>): multiset<Particle>
    requires forall k | k in s :: 0 <= k < |a|
  {
    if exists x :: x in s then
      var x :| x in s;
      a[x] + SumSet(s - {x}, a)
    else multiset{}
  }

  lemma {:induction false} SumSetPick(s: set<int>, a: seq<multiset<Particle>>, y: int)
    requires (forall k | k in s :: 0 <= k < |a|) && y in s
    ensures SumSet(s, a) == a[y] + SumSet(s - {y}, a)
    decreases s
  {
    var x :| x in s && SumSet(s, a) == a[x] + SumSet(s - {x}, a);
    if x != y {
      SumSetPick(s - {x}, a, y);
      SumSetPick(s - {y}, a, x);
      assert s - {x} - {y} == s - {y} - {x};
    }
  }

  function Below(n: nat): (s: set<int>)
    ensures forall k :: k in s <==> 0 <= k < n
  {
    if n == 0 then {} else Below(n - 1) + {n - 1}
  }

  lemma {:induction false} SumAllIsSumSet(a: seq<multiset<Particle>>, n: nat)
    requires n <= |a|
    ensures SumAll(a[..n]) == SumSet(Below(n), a)
  {
    if n > 0 {
      var m := n - 1;
      SumAllIsSumSet(a, m);
      assert a[..n][..m] == a[..m];
      SumSetPick(Below(n), a, m);
      assert Below(n) - {m} == Below(m);
    }
  }

  ghost predicate Injective(p: seq<int>, s: set<int>) {
    && (forall k | k in s :: 0 <= k < |p|)
    && forall j, k | j in s && k in s && p[j] == p[k] :: j == k
  }

  function Image(p: seq<int>, s: set<int>): set<int>
    requires forall k | k in s :: 0 <= k < |p|
  {
    set k | k in s :: p[k]
  }

  lemma {:induction false} Reindex(s: set<int>, p: seq<int>, a: seq<multiset<Particle>>, b: seq<multiset<Particle>>)
    requires Injective(p, s) && forall k | k in s :: 0 <= k < |b| && 0 <= p[k] < |a| && b[k] == a[p[k]]
    ensures SumSet(s, b) == SumSet(Image(p, s), a)
    decreases s
  {
    if x :| x in s {
      SumSetPick(s, b, x);
      Reindex(s - {x}, p, a, b);
      SumSetPick(Image(p, s), a, p[x]);
      assert Image(p, s) - {p[x]} == Image(p, s - {x});
    }
  }

  /** q undoes p. */
  ghost predicate Inverses(p: seq<int>, q: seq<int>) {
    && |p| == |q|
    && forall k | 0 <= k < |p| :: 0 <= p[k] < |p| && q[p[k]] == k && 0 <= q[k] < |p| && p[q[k]] == k
  }

  /** Then p takes every value, and only once. */
  lemma InversesPermute(p: seq<int>, q: seq<int>)
    requires Inverses(p, q)
    ensures Injective(p, Below(|p|)) && Image(p, Below(|p|)) == Below(|p|)
  {
    hide Below;
    var all := Below(|p|);
    forall k | k in all ensures k in Image(p, all) {
      var j := q[k];
      assert j in all && p[j] == k;
    }
    forall x | x in Image(p, all) ensures x in all {
      var k :| k in all && p[k] == x;
    }
  }

  /** A sum over all tiles does not change when a neighbour map renames them. */
  lemma NeighbourSum(g: Grid, d: int, a: seq<multiset<Particle>>, b: seq<multiset<Particle>>)
    requires g.Valid() && 0 <= d < 8 && |a| == |b| == g.Count()
    requires forall k | 0 <= k < |b| :: 0 <= Source(g, k, d) < |a| && b[k] == a[Source(g, k, d)]
    ensures SumAll(b) == SumAll(a)
  {
    hide Source, Dest, SumAll, SumSet, Below, Image, Injective;
    var n := |a|;
    var p := seq(n, k requires 0 <= k < n => Source(g, k, d));
    var q := seq(n, k requires 0 <= k < n => Dest(g, k, d));
    forall k | 0 <= k < n ensures 0 <= p[k] < n && q[p[k]] == k && 0 <= q[k] < n && p[q[k]] == k {
      SourceDestInverse(g, k, d);
    }
    InversesPermute(p, q);
    Reindex(Below(n), p, a, b);
    SumAllIsSumSet(a, n);
    SumAllIsSumSet(b, n);
    assert a[..n] == a && b[..n] == b;
  }

  // ------------------------------------------------ conservation

  /** The particles of a tile that leave in direction d + 1. */
  ghost function LeaversOf(s: seq<Particle>, n: int, hs: seq<Hole>, d: nat): multiset<Particle>
    requires 0 <= n <= |s| && Ascending(hs, n)
  {
    multiset(Out(s, hs, d + 1))
  }

  /** The particles of a tile that stay or leave in the first d directions. */
  ghost function OldOf(s: seq<Particle>, n: int, hs: seq<Hole>, d: nat): multiset<Particle>
    requires 0 <= n <= |s| && Ascending(hs, n)
  {
    Live(s, n, Unfilled(hs, 0)) + OutSum(s, hs, d)
  }

  /** The particles that stay in a tile or arrive from the first d directions. */
  ghost function NewOf(s: seq<Particle>, n: int, hs: seq<Hole>, outs: seq<seq<Particle>>, d: nat): multiset<Particle>
    requires 0 <= n <= |s| && Ascending(hs, n) && d <= |outs|
  {
    Live(s, n, Unfilled(hs, 0)) + multiset(Received(outs, d))
  }

  lemma SumAssoc(a: multiset<Particle>, b: multiset<Particle>, c: multiset<Particle>)
    ensures (a + b) + c == a + (b + c)
  {
  }

  lemma OldNext(s: seq<Particle>, n: int, hs: seq<Hole>, d: nat)
    requires 0 <= n <= |s| && Ascending(hs, n)
    ensures OldOf(s, n, hs, d + 1) == OldOf(s, n, hs, d) + LeaversOf(s, n, hs, d)
  {
    hide OutSum, Live, Out, Open;
    OutSumNext(s, hs, d + 1);
    SumAssoc(Live(s, n, Unfilled(hs, 0)), OutSum(s, hs, d), multiset(Out(s, hs, d + 1)));
  }

  lemma NewNext(s: seq<Particle>, n: int, hs: seq<Hole>, outs: seq<seq<Particle>>, d: nat)
    requires 0 <= n <= |s| && Ascending(hs, n) && d < |outs|
    ensures NewOf(s, n, hs, outs, d + 1) == NewOf(s, n, hs, outs, d) + multiset(outs[d])
  {
    hide Live, Received, Open, Ascending;
    ReceivedNext(outs, d);
    SumAssoc(Live(s, n, Unfilled(hs, 0)), multiset(Received(outs, d)), multiset(outs[d]));
  }

  /** Nobody has left, nobody has arrived; then everybody who leaves has left. */
  lemma OldEnds(s: seq<Particle>, n: int, hs: seq<Hole>, outs: seq<seq<Particle>>)
    requires 0 <= n <= |s| && Ascending(hs, n)
    ensures OldOf(s, n, hs, 0) == NewOf(s, n, hs, outs, 0)
    ensures OldOf(s, n, hs, 8) == multiset(s[..n])
  {
    hide Live, Out, Open;
    StayAndLeave(s, hs, n);
  }

  // The same for all tiles at once.

  ghost function OldPart(g: Grid, t: Contents, n: seq<int>, hss: seq<seq<Hole>>, d: nat): (a: seq<multiset<Particle>>)
    requires HolesFit(g, t, n, hss)
    ensures |a| == |t| && forall k | 0 <= k < |t| :: a[k] == OldOf(t[k], n[k], hss[k], d)
  {
    seq(|t|, k requires 0 <= k < |t| => OldOf(t[k], n[k], hss[k], d))
  }

  ghost function NewPart(g: Grid, t: Contents, n: seq<int>, hss: seq<seq<Hole>>, d: nat): (a: seq<multiset<Particle>>)
    requires HolesFit(g, t, n, hss) && d <= 8
    ensures |a| == |t| && forall k | 0 <= k < |t| :: a[k] == NewOf(t[k], n[k], hss[k], Sent(g, t, n, hss, k), d)
  {
    seq(|t|, k requires 0 <= k < |t| => NewOf(t[k], n[k], hss[k], Sent(g, t, n, hss, k), d))
  }

  /** What leaves in direction d + 1, tile by tile, and what arrives from there. */
  ghost function Leavers(g: Grid, t: Contents, n: seq<int>, hss: seq<seq<Hole>>, d: nat): (a: seq<multiset<Particle>>)
    requires HolesFit(g, t, n, hss)
    ensures |a| == |t| && forall k | 0 <= k < |t| :: a[k] == LeaversOf(t[k], n[k], hss[k], d)
  {
    seq(|t|, k requires 0 <= k < |t| => LeaversOf(t[k], n[k], hss[k], d))
  }

  ghost function Arrivals(g: Grid, t: Contents, n: seq<int>, hss: seq<seq<Hole>>, d: nat): (a: seq<multiset<Particle>>)
    requires HolesFit(g, t, n, hss) && d < 8
    ensures |a| == |t| && forall k | 0 <= k < |t| :: a[k] == multiset(Sent(g, t, n, hss, k)[d])
  {
    seq(|t|, k requires 0 <= k < |t| => multiset(Sent(g, t, n, hss, k)[d]))
  }

  lemma {:induction false} PartsAgree(g: Grid, t: Contents, n: seq<int>, hss: seq<seq<Hole>>, d: nat)
    requires HolesFit(g, t, n, hss) && d <= 8
    ensures SumAll(OldPart(g, t, n, hss, d)) == SumAll(NewPart(g, t, n, hss, d))
  {
    hide SumAll, OldOf, NewOf, LeaversOf, Ascending, Sent;
    if d == 0 {
      forall k | 0 <= k < |t| ensures OldPart(g, t, n, hss, 0)[k] == NewPart(g, t, n, hss, 0)[k] {
        OldEnds(t[k], n[k], hss[k], Sent(g, t, n, hss, k));
      }
      assert OldPart(g, t, n, hss, 0) == NewPart(g, t, n, hss, 0);
    } else {
      var e := d - 1;
      PartsAgree(g, t, n, hss, e);
      OldGrows(g, t, n, hss, e);
      NewGrows(g, t, n, hss, e);
      ArrivalsAreLeavers(g, t, n, hss, e);
    }
  }

  lemma OldGrows(g: Grid, t: Contents, n: seq<int>, hss: seq<seq<Hole>>, d: nat)
    requires HolesFit(g, t, n, hss)
    ensures SumAll(OldPart(g, t, n, hss, d + 1)) == SumAll(OldPart(g, t, n, hss, d)) + SumAll(Leavers(g, t, n, hss, d))
  {
    hide SumAll, OldOf, LeaversOf, Ascending;
    var next := d + 1;
    forall k | 0 <= k < |t|
      ensures OldPart(g, t, n, hss, next)[k] == OldPart(g, t, n, hss, d)[k] + Leavers(g, t, n, hss, d)[k] {
      OldNext(t[k], n[k], hss[k], d);
    }
    SumAllPlus(OldPart(g, t, n, hss, d), Leavers(g, t, n, hss, d), OldPart(g, t, n, hss, next));
  }

  lemma NewGrows(g: Grid, t: Contents, n: seq<int>, hss: seq<seq<Hole>>, d: nat)
    requires HolesFit(g, t, n, hss) && d < 8
    ensures SumAll(NewPart(g, t, n, hss, d + 1)) == SumAll(NewPart(g, t, n, hss, d)) + SumAll(Arrivals(g, t, n, hss, d))
  {
    hide SumAll, NewOf, Ascending, Sent;
    var next := d + 1;
    forall k | 0 <= k < |t|
      ensures NewPart(g, t, n, hss, next)[k] == NewPart(g, t, n, hss, d)[k] + Arrivals(g, t, n, hss, d)[k] {
      NewNext(t[k], n[k], hss[k], Sent(g, t, n, hss, k), d);
    }
    SumAllPlus(NewPart(g, t, n, hss, d), Arrivals(g, t, n, hss, d), NewPart(g, t, n, hss, next));
  }

  lemma SentAt(g: Grid, t: Contents, n: seq<int>, hss: seq<seq<Hole>>, k: nat, d: nat)
    requires HolesFit(g, t, n, hss) && k < |t| && d < 8
    ensures 0 <= Source(g, k, d) < |t|
    ensures multiset(Sent(g, t, n, hss, k)[d]) ==
            LeaversOf(t[Source(g, k, d)], n[Source(g, k, d)], hss[Source(g, k, d)], d)
  {
    hide Source, Out;
    SourceDestInverse(g, k, d);
  }

  lemma ArrivalsAreLeavers(g: Grid, t: Contents, n: seq<int>, hss: seq<seq<Hole>>, d: nat)
    requires HolesFit(g, t, n, hss) && d < 8
    ensures SumAll(Arrivals(g, t, n, hss, d)) == SumAll(Leavers(g, t, n, hss, d))
  {
    hide SumAll, LeaversOf, Ascending, Source, Sent;
    var a, b := Leavers(g, t, n, hss, d), Arrivals(g, t, n, hss, d);
    forall k | 0 <= k < |b| ensures 0 <= Source(g, k, d) < |a| && b[k] == a[Source(g, k, d)] {
      SentAt(g, t, n, hss, k, d);
    }
    NeighbourSum(g, d, a, b);
  }

  /** The tiles of either routine afterwards, and what they held before. */
  ghost function AllAfter(g: Grid, t: Contents, n: seq<int>, hss: seq<seq<Hole>>): (a: seq<multiset<Particle>>)
    requires HolesFit(g, t, n, hss)
    ensures |a| == |t| && forall k | 0 <= k < |t| :: a[k] == After(g, t, n, hss, k)
  {
    seq(|t|, k requires 0 <= k < |t| => After(g, t, n, hss, k))
  }

  ghost function AllBefore(g: Grid, t: Contents, n: seq<int>): (a: seq<multiset<Particle>>)
    requires |t| == |n| && forall k | 0 <= k < |t| :: 0 <= n[k] <= |t[k]|
    ensures |a| == |t| && forall k | 0 <= k < |t| :: a[k] == multiset(t[k][..n[k]])
  {
    seq(|t|, k requires 0 <= k < |t| => multiset(t[k][..n[k]]))
  }

  /** Main result: over all tiles together, the particles afterwards are the particles before,
      as a multiset, whatever the number of tiles. */
  lemma Conservation(g: Grid, t: Contents, n: seq<int>, hss: seq<seq<Hole>>)
    requires HolesFit(g, t, n, hss)
    ensures SumAll(AllAfter(g, t, n, hss)) == SumAll(AllBefore(g, t, n))
  {
    hide SumAll, Live, Ascending, Open, Sent, Received, OldOf;
    PartsAgree(g, t, n, hss, 8);
    assert AllAfter(g, t, n, hss) == NewPart(g, t, n, hss, 8);
    forall k | 0 <= k < |t| ensures AllBefore(g, t, n)[k] == OldPart(g, t, n, hss, 8)[k] {
      OldEnds(t[k], n[k], hss[k], []);
    }
    assert AllBefore(g, t, n) == OldPart(g, t, n, hss, 8);
  }

  // ------------------------------------------------ every particle in its tile

  /** The first n particles of the row lie in tile k. */
  ghost predicate SortedRow(g: Grid, k: int, row: seq<Particle>, n: int)
    requires g.mx1 >= 1
  {
    n <= |row| && forall j | 0 <= j < n :: InTile(g, k, row[j])
  }

  ghost predicate SortedTiles(g: Grid, rows: Contents, n: seq<int>)
    requires g.mx1 >= 1
  {
    |rows| == |n| && forall k | 0 <= k < |rows| :: SortedRow(g, k, rows[k], n[k])
  }

  /** The first n particles of the row have not moved past a neighbour of tile k. */
  ghost predicate NearRow(g: Grid, k: int, row: seq<Particle>, n: int)
    requires g.mx1 >= 1
  {
    forall j | 0 <= j < n && j < |row| :: NearTile(g, k, row[j])
  }

  /** A particle in its tile is near it. */
  lemma InTileIsNear(g: Grid, k: int, p: Particle)
    requires g.Valid() && 0 <= k < g.Count() && InTile(g, k, p)
    ensures NearTile(g, k, p)
  {
    hide TileX, TileY;
    TileParts(g, k);
    InPieceIsNear(p.x, TileX(g, k), g.mx, g.nx, g.mx1);
    InPieceIsNear(p.y, TileY(g, k), g.my, g.ny, g.my1);
  }

  lemma InPieceIsNear(x: real, c: int, m: int, n: int, pieces: int)
    requires Axis(n, m, pieces) && 0 <= c < pieces && InPiece(x, c, m, n)
    ensures Near(x, c, m, n, pieces)
  {
    hide Edge, UpperEdge, Axis;
    AxisFacts(n, m, pieces, c);
    AxisFacts(n, m, pieces, 0);
    AxisFacts(n, m, pieces, pieces - 1);
    if c > 0 { AxisFacts(n, m, pieces, c - 1); }
    if c < pieces - 1 { AxisFacts(n, m, pieces, c + 1); }
  }

  /** No particle has been pushed beyond a neighbouring tile. */
  ghost predicate NearTiles(g: Grid, rows: Contents, n: seq<int>)
    requires Filled(g, rows, n)
  {
    forall k | 0 <= k < |rows| :: NearRow(g, k, rows[k], n[k])
  }

  lemma StayerInTile(g: Grid, round: real -> real, k: nat, row: seq<Particle>, n: nat, p: Particle)
    requires g.Valid() && k < g.Count() && n <= |row| && NearRow(g, k, row, n) && Rounding(round, g.nx)
             && Rounding(round, g.ny)
    requires p in Live(SettleFirst(g, k, round, row, n), n, Unfilled(HolesOf(g, k, round, row[..n]), 0))
    ensures InTile(g, k, p)
  {
    hide InTile, NearTile, Settle, Live, Rounding, Open, Leaving;
    var hs, dirs := HolesOf(g, k, round, row[..n]), Directions(g, k, round, row[..n]);
    LiveMembers(SettleFirst(g, k, round, row, n), n, Unfilled(hs, 0), p);
    var i :| 0 <= i < n && i !in Unfilled(hs, 0) && SettleFirst(g, k, round, row, n)[i] == p;
    if dirs[i] > 0 {
      LeavingHasAll(dirs, n, i);
      EntryIsOpen(hs, Hole(i + 1, dirs[i]));
    }
    SettledInTile(g, k, round, row[i]);
  }

  lemma LeaverInTile(g: Grid, round: real -> real, h: nat, row: seq<Particle>, n: nat, d: nat, p: Particle)
    requires g.Valid() && h < g.Count() && n <= |row| && NearRow(g, h, row, n) && Rounding(round, g.nx)
             && Rounding(round, g.ny) && d < 8
    requires p in Out(SettleFirst(g, h, round, row, n), HolesOf(g, h, round, row[..n]), d + 1)
    ensures InTile(g, Dest(g, h, d), p)
  {
    hide InTile, NearTile, Settle, Out, Rounding, Dest, Leaving;
    var t, hs := SettleFirst(g, h, round, row, n), HolesOf(g, h, round, row[..n]);
    OutMembers(t, hs, d + 1, p);
    var i :| 0 <= i < |hs| && hs[i].dir == d + 1 && t[hs[i].at - 1] == p;
    LeavingHave(Directions(g, h, round, row[..n]), n, hs[i]);
    SettledInTile(g, h, round, row[hs[i].at - 1]);
  }

  lemma {:induction false} ReceivedMembers(outs: seq<seq<Particle>>, d: nat, p: Particle) returns (e: nat)
    requires d <= |outs| && p in Received(outs, d)
    ensures e < d && p in outs[e]
  {
    if p in outs[d - 1] {
      e := d - 1;
    } else {
      e := ReceivedMembers(outs, d - 1, p);
    }
  }

  lemma NewTileInTile(g: Grid, round: real -> real, rows: Contents, n: seq<int>, k: nat, p: Particle)
    requires Filled(g, rows, n) && NearTiles(g, rows, n) && Rounding(round, g.nx) && Rounding(round, g.ny)
    requires k < |rows| && p in NewTile(g, round, rows, n, k)
    ensures InTile(g, k, p)
  {
    hide InTile, NearTile, Live, Out, Received, Source, Dest, Rounding, HolesOf, SettleFirst, Open;
    var t, hss := AllSettled(g, round, rows, n), AllHoles(g, round, rows, n);
    HolesFitAll(g, round, rows, n);
    if p in Live(t[k], n[k], Unfilled(hss[k], 0)) {
      StayerInTile(g, round, k, rows[k], n[k], p);
    } else {
      var outs := Sent(g, t, n, hss, k);
      var d := ReceivedMembers(outs, 8, p);
      SourceDestInverse(g, k, d);
      var h := Source(g, k, d);
      assert outs[d] == Out(t[h], hss[h], d + 1);
      LeaverInTile(g, round, h, rows[h], n[h], d, p);
    }
  }

  /** Main result: after cpporder2l has reported no overflow, and if no particle had moved past a
      neighbouring tile, every particle lies in the tile that holds it. */
  lemma OrderSorts(g: Grid, round: real -> real, rows: Contents, n: seq<int>, rows': Contents, n': seq<int>, ntmax: int,
                   npbmx: int, nppmx: int)
    requires Filled(g, rows, n) && NearTiles(g, rows, n) && Rounding(round, g.nx) && Rounding(round, g.ny)
    requires Outcome(g, round, rows, n, 0, rows', n', ntmax, npbmx, nppmx)
    ensures SortedTiles(g, rows', n')
  {
    hide InTile, NearTiles, NewTile, Rounding, HasRoom;
    forall k: nat | k < |rows'| ensures SortedRow(g, k, rows'[k], n'[k]) {
      var m := NewTile(g, round, rows, n, k);
      assert Holds(rows'[k], n'[k], m);
      forall j | 0 <= j < n'[k] ensures InTile(g, k, rows'[k][j]) {
        assert rows'[k][j] in rows'[k][..n'[k]];
        assert rows'[k][j] in m;
        NewTileInTile(g, round, rows, n, k, rows'[k][j]);
      }
    }
  }

  /** q is p seen in the periodic box. */
  ghost predicate SamePoint(g: Grid, round: real -> real, p: Particle, q: Particle) {
    && ImageAxis(g.nx as real, round, p.x, q.x) && ImageAxis(g.ny as real, round, p.y, q.y)
    && q.vx == p.vx && q.vy == p.vy
  }

  ghost predicate ImageAxis(n: real, round: real -> real, x: real, x': real) {
    if x >= n then x' == x - n
    else if x >= 0.0 then x' == x
    else if round(x + n) < n then x' == round(x + n)
    else x' == 0.0
  }

  /** Apart from rounding, the same point differs by a whole number of lengths of the box, and lies in
      it if the particle was no further than one length outside. */
  lemma SamePointIsCongruent(g: Grid, round: real -> real, p: Particle, q: Particle) returns (a: int, b: int)
    requires g.Valid() && SamePoint(g, round, p, q)
    requires -(g.nx as real) <= p.x < 2.0 * g.nx as real && -(g.ny as real) <= p.y < 2.0 * g.ny as real
    requires round(p.x + g.nx as real) == p.x + g.nx as real && round(p.y + g.ny as real) == p.y + g.ny as real
    ensures q.x == p.x + (a * g.nx) as real && 0.0 <= q.x < g.nx as real
    ensures q.y == p.y + (b * g.ny) as real && 0.0 <= q.y < g.ny as real
    ensures q.vx == p.vx && q.vy == p.vy
  {
    a := if p.x >= g.nx as real then -1 else if p.x >= 0.0 then 0 else 1;
    b := if p.y >= g.ny as real then -1 else if p.y >= 0.0 then 0 else 1;
  }

  /** Particle by particle, the tiles of t hold the images of those of rows. */
  ghost predicate Images(g: Grid, round: real -> real, rows: Contents, t: Contents, n: seq<int>) {
    && |t| == |rows| == |n|
    && (forall k | 0 <= k < |t| :: |t[k]| == |rows[k]| && 0 <= n[k] <= |t[k]|)
    && forall k, j | 0 <= k < |t| && 0 <= j < n[k] :: SamePoint(g, round, rows[k][j], t[k][j])
  }

  lemma SettledAreImages(g: Grid, round: real -> real, rows: Contents, n: seq<int>)
    requires Filled(g, rows, n)
    ensures Images(g, round, rows, AllSettled(g, round, rows, n), n)
  {
    hide Settle;
    var t := AllSettled(g, round, rows, n);
    forall k, j | 0 <= k < |t| && 0 <= j < n[k] ensures SamePoint(g, round, rows[k][j], t[k][j]) {
      SettleStores(g, k, round, rows[k][j]);
    }
  }

  /** The tiles of rows' hold, all together, the images of the particles of rows: one for each. */
  ghost predicate SameParticles(g: Grid, round: real -> real, rows: Contents, n: seq<int>, rows': Contents,
                                n': seq<int>)
    requires Filled(g, rows, n)
  {
    && |rows'| == |n'| && (forall k | 0 <= k < |rows'| :: 0 <= n'[k] <= |rows'[k]|)
    && exists t: Contents ::
         Images(g, round, rows, t, n) && SumAll(AllBefore(g, rows', n')) == SumAll(AllBefore(g, t, n))
  }

  lemma OrderKeepsSum(g: Grid, round: real -> real, rows: Contents, n: seq<int>, rows': Contents, n': seq<int>,
                      ntmax: int, npbmx: int, nppmx: int)
    requires Filled(g, rows, n) && Outcome(g, round, rows, n, 0, rows', n', ntmax, npbmx, nppmx)
    ensures |rows'| == |n'| && forall k | 0 <= k < |rows'| :: 0 <= n'[k] <= |rows'[k]|
    ensures SumAll(AllBefore(g, rows', n')) == SumAll(AllBefore(g, AllSettled(g, round, rows, n), n))
  {
    hide HasRoom, SumAll, AllSettled, AllHoles, After, HolesFit;
    var t, hss := AllSettled(g, round, rows, n), AllHoles(g, round, rows, n);
    HolesFitAll(g, round, rows, n);
    Conservation(g, t, n, hss);
    forall k: nat | k < |rows'|
      ensures 0 <= n'[k] <= |rows'[k]| && multiset(rows'[k][..n'[k]]) == After(g, t, n, hss, k)
    {
      assert Holds(rows'[k], n'[k], NewTile(g, round, rows, n, k));
    }
    assert AllBefore(g, rows', n') == AllAfter(g, t, n, hss);
  }

  /** And no particle is lost: the tiles together hold the wrapped particles they held before. */
  lemma OrderConserves(g: Grid, round: real -> real, rows: Contents, n: seq<int>, rows': Contents, n': seq<int>,
                       ntmax: int, npbmx: int, nppmx: int)
    requires Filled(g, rows, n) && Outcome(g, round, rows, n, 0, rows', n', ntmax, npbmx, nppmx)
    ensures SameParticles(g, round, rows, n, rows', n')
    ensures |rows'| == |n'| && forall k | 0 <= k < |rows'| :: 0 <= n'[k] <= |rows'[k]|
    ensures SumAll(AllBefore(g, rows', n')) == SumAll(AllBefore(g, AllSettled(g, round, rows, n), n))
  {
    hide SumAll, AllBefore, AllSettled, Images, Outcome, Filled, HasRoom, NewTile;
    OrderKeepsSum(g, round, rows, n, rows', n', ntmax, npbmx, nppmx);
    SettledAreImages(g, round, rows, n);
    assert Images(g, round, rows, AllSettled(g, round, rows, n), n);
  }

  // ------------------------------------------------ the check

  /** One tile of cppcheck2l. */
  method CheckTile(g: Grid, ppart: array2<Particle>, npp: nat, k: nat) returns (outside: bool)
    requires g.Valid() && k < ppart.Length0 && npp <= ppart.Length1
    ensures outside <==> !SortedRow(g, k, Row(ppart, k), npp)
  {
    var noff, noffr, moff, moffr := TileEdges(g, k);
    var edgelx, edgerx, edgely, edgery := noff as real, noffr as real, moff as real, moffr as real;
    assert forall p :: InTile(g, k, p) <==> edgelx <= p.x < edgerx && edgely <= p.y < edgery;
    outside := false;
    for j := 0 to npp
      invariant outside <==> exists i :: 0 <= i < j && !InTile(g, k, ppart[k, i])
    {
      var dx, dy := ppart[k, j].x, ppart[k, j].y;
      var ist := 0;
      if dx < edgelx { ist := 1; }
      if dx >= edgerx { ist := 2; }
      if dy < edgely { ist := ist + 3; }
      if dy >= edgery { ist := ist + 6; }
      if ist > 0 { outside := true; }
    }
  }

  /** cppcheck2l reports nothing exactly when every particle lies in its tile. */
  method Cppcheck2l(g: Grid, ppart: array2<Particle>, kpic: array<int>, irc: int) returns (irc': int)
    requires g.Valid() && g.Count() == ppart.Length0 == kpic.Length && irc == 0
    requires forall k | 0 <= k < kpic.Length :: 0 <= kpic[k] <= ppart.Length1
    ensures irc' == 0 <==> SortedTiles(g, Rows(ppart), kpic[..])
  {
    hide SortedRow, Row;
    irc' := irc;
    for k := 0 to kpic.Length
      invariant irc' >= 0
      invariant irc' == 0 <==> forall h: nat | h < k :: SortedRow(g, h, Row(ppart, h), kpic[h])
    {
      var outside := CheckTile(g, ppart, kpic[k], k);
      if outside { irc' := k + 1; }
    }
  }

  /** cppcheck2l after cpporder2l: if no particle had moved past a neighbouring tile and no overflow
      is reported, the check reports nothing, and the tiles hold the wrapped particles of before. */
  method OrderThenCheck(g: Grid, ppart: array2<Particle>, ppbuff: array2<Particle>, kpic: array<int>, ncl: array2<int>,
                        ihole: array2<Hole>, round: real -> real)
    returns (irc: int, outside: int)
    requires g.Valid() && g.Count() == ppart.Length0 == ppbuff.Length0 == kpic.Length == ncl.Length0 == ihole.Length0
    requires ncl.Length1 == 8 && ihole.Length1 >= 1 && ppart != ppbuff && Filled(g, Rows(ppart), kpic[..])
    requires NearTiles(g, Rows(ppart), kpic[..]) && Rounding(round, g.nx) && Rounding(round, g.ny)
    modifies ppart, ppbuff, kpic, ncl, ihole
    ensures irc == 0 ==> outside == 0 && SortedTiles(g, Rows(ppart), kpic[..])
    ensures irc == 0 ==> SameParticles(g, round, old(Rows(ppart)), old(kpic[..]), Rows(ppart), kpic[..])
  {
    hide NearTiles, Rounding, SumAll, AllBefore, AllSettled, Outcome, SortedTiles, HasRoom, NewTile, Filled,
      SameParticles;
    ghost var rows, n := Rows(ppart), kpic[..];
    irc := Cpporder2l(g, ppart, ppbuff, kpic, ncl, ihole, round, 0);
    outside := 0;
    if irc == 0 {
      OrderSorts(g, round, rows, n, Rows(ppart), kpic[..], ihole.Length1 - 1, ppbuff.Length1, ppart.Length1);
      OrderConserves(g, round, rows, n, Rows(ppart), kpic[..], ihole.Length1 - 1, ppbuff.Length1, ppart.Length1);
      outside := Cppcheck2l(g, ppart, kpic, 0);
    }
  }
}
