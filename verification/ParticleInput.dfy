/** cppmovin2l: the particles are distributed over the tiles for the first time. */
module ParticleInput {
  import opened Tiles
  import opened Holes
  import opened Reorder
  import opened ParticleOrder
  import opened ParticleLaws
  import opened Blocks

  ghost predicate InBox(g: Grid, p: Particle) {
    0.0 <= p.x < g.nx as real && 0.0 <= p.y < g.ny as real
  }

  /** The tile number computed for a particle; the C conversion to int drops the fraction. */
  function HomeTile(g: Grid, p: Particle): int
    requires g.Valid()
  {
    p.x.Floor / g.mx + g.mx1 * (p.y.Floor / g.my)
  }

  lemma HomePiece(x: real, n: int, m: int, pieces: int)
    requires Axis(n, m, pieces) && 0.0 <= x < n as real
    ensures 0 <= x.Floor / m < pieces && InPiece(x, x.Floor / m, m, n)
  {
    var f, c := x.Floor, x.Floor / m;
    assert 0 <= f <= n - 1;
    QuotientIs(f, m, c);
    EdgeIs(c, m);
    MulCompare(c, -1, m);
    if c >= pieces {
      AxisFacts(n, m, pieces, pieces - 1);
      EdgeIs(pieces - 1, m);
      MulCompare(pieces, c, m);
      Distribute(pieces - 1, 1, m);
    }
  }

  lemma HomeInTile(g: Grid, p: Particle)
    requires g.Valid() && InBox(g, p)
    ensures 0 <= HomeTile(g, p) < g.Count() && InTile(g, HomeTile(g, p), p)
  {
    hide InPiece;
    HomePiece(p.x, g.nx, g.mx, g.mx1);
    HomePiece(p.y, g.ny, g.my, g.my1);
    PartsOfTile(g, p.x.Floor / g.mx, p.y.Floor / g.my);
    assert HomeTile(g, p) == TileAt(g, p.x.Floor / g.mx, p.y.Floor / g.my);
  }

  /** The particles of tile k, in the order of part. */
  function Dwellers(g: Grid, part: seq<Particle>, k: int): seq<Particle>
    requires g.Valid()
  {
    if part == [] then []
    else
      var p := part[|part| - 1];
      Dwellers(g, part[..|part| - 1], k) + if HomeTile(g, p) == k then [p] else []
  }

  lemma DwellersNext(g: Grid, part: seq<Particle>, j: nat, k: int)
    requires g.Valid() && j < |part|
    ensures Dwellers(g, part[..j + 1], k) == Dwellers(g, part[..j], k) + if HomeTile(g, part[j]) == k then [part[j]]
                                             else []
  {
    assert part[..j + 1][..j] == part[..j];
  }

  lemma {:induction false} DwellersInTile(g: Grid, part: seq<Particle>, k: int, p: Particle)
    requires g.Valid() && (forall i | 0 <= i < |part| :: InBox(g, part[i])) && p in Dwellers(g, part, k)
    ensures InTile(g, k, p)
  {
    hide InTile, HomeTile;
    var last := part[|part| - 1];
    if p in Dwellers(g, part[..|part| - 1], k) {
      DwellersInTile(g, part[..|part| - 1], k, p);
    } else {
      HomeInTile(g, last);
    }
  }

  /** The row holds the list, or as much of it as fits; count is the length of the whole list. */
  ghost predicate Collected(row: seq<Particle>, count: int, list: seq<Particle>) {
    && count == |list|
    && forall i | 0 <= i < |list| && i < |row| :: row[i] == list[i]
  }

  lemma CollectedNext(row: seq<Particle>, count: int, list: seq<Particle>, p: Particle)
    requires Collected(row, count, list)
    ensures Collected(if count < |row| then row[count := p] else row, count + 1, list + [p])
  {
  }

  method ClearTiles(kpic: array<int>)
    modifies kpic
    ensures forall k | 0 <= k < kpic.Length :: kpic[k] == 0
  {
    for k := 0 to kpic.Length
      invariant forall h | 0 <= h < k :: kpic[h] == 0
    {
      kpic[k] := 0;
    }
  }

  /** Puts one particle at the end of its tile. */
  method PutParticle(ppart: array2<Particle>, kpic: array<int>, m: nat, p: Particle, ghost list: seq<Particle>)
    returns (over: int)
    requires m < ppart.Length0 && m < kpic.Length && Collected(Row(ppart, m), kpic[m], list)
    modifies ppart, kpic
    ensures Collected(Row(ppart, m), kpic[m], list + [p])
    ensures over == if kpic[m] > ppart.Length1 then kpic[m] - ppart.Length1 else 0
    ensures forall h: nat | h < ppart.Length0 && h != m :: Row(ppart, h) == old(Row(ppart, h))
    ensures forall h | 0 <= h < kpic.Length && h != m :: kpic[h] == old(kpic[h])
  {
    ghost var row := Row(ppart, m);
    CollectedNext(row, kpic[m], list, p);
    var ip := kpic[m];
    over := 0;
    if ip < ppart.Length1 {
      ppart[m, ip] := p;
    } else {
      over := ip - ppart.Length1 + 1;
    }
    kpic[m] := ip + 1;
    assert Row(ppart, m) == if ip < |row| then row[ip := p] else row;
  }

  /** cppmovin2l reports an overflow exactly when some tile has too many particles. */
  method Cppmovin2l(g: Grid, part: seq<Particle>, ppart: array2<Particle>, kpic: array<int>, irc: int)
    returns (irc': int)
    requires g.Valid() && g.Count() == ppart.Length0 == kpic.Length && irc == 0
    requires forall i | 0 <= i < |part| :: InBox(g, part[i])
    modifies ppart, kpic
    ensures forall k: nat | k < kpic.Length :: Collected(Row(ppart, k), kpic[k], Dwellers(g, part, k))
    ensures irc' == 0 <==> forall k: nat | k < kpic.Length :: kpic[k] <= ppart.Length1
  {
    hide Row, HomeTile, Collected, InBox, Dwellers, InTile;
    var ierr := 0;
    ClearTiles(kpic);
    Empty(g, part, Rows(ppart), kpic[..]);
    for j := 0 to |part|
      invariant forall k: nat | k < kpic.Length :: Collected(Row(ppart, k), kpic[k], Dwellers(g, part[..j], k))
      invariant ierr >= 0 && (ierr == 0 <==> forall k: nat | k < kpic.Length :: kpic[k] <= ppart.Length1)
    {
      HomeInTile(g, part[j]);
      var m := HomeTile(g, part[j]);
      ghost var next := j + 1;
      forall k: nat | k < kpic.Length
        ensures Dwellers(g, part[..next], k)
             == if k == m then Dwellers(g, part[..j], k) + [part[j]] else Dwellers(g, part[..j], k)
      {
        DwellersNext(g, part, j, k);
      }
      CollectedCount(Row(ppart, m), kpic[m], Dwellers(g, part[..j], m));
      var over := PutParticle(ppart, kpic, m, part[j], Dwellers(g, part[..j], m));
      CollectedCount(Row(ppart, m), kpic[m], Dwellers(g, part[..j], m) + [part[j]]);
      if over > ierr { ierr := over; }
    }
    assert part[..|part|] == part;
    irc' := irc;
    if ierr > 0 { irc' := ierr; }
  }

  lemma CollectedCount(row: seq<Particle>, count: int, list: seq<Particle>)
    requires Collected(row, count, list)
    ensures count == |list|
  {
  }

  lemma Empty(g: Grid, part: seq<Particle>, rows: Contents, n: seq<int>)
    requires g.Valid() && |rows| == |n| && forall k | 0 <= k < |n| :: n[k] == 0
    ensures forall k: nat | k < |n| :: Collected(rows[k], n[k], Dwellers(g, part[..0], k))
  {
    assert part[..0] == [];
  }

  // ------------------------------------------------ nothing lost, everything in its tile

  function DwellersOfAll(g: Grid, part: seq<Particle>, n: nat): (a: seq<multiset<Particle>>)
    requires g.Valid()
    ensures |a| == n && forall k | 0 <= k < n :: a[k] == multiset(Dwellers(g, part, k))
  {
    seq(n, k requires 0 <= k < n => multiset(Dwellers(g, part, k)))
  }

  lemma {:induction false} SumAllAdd(a: seq<multiset<Particle>>, k: nat, p: Particle)
    requires k < |a|
    ensures SumAll(a[k := a[k] + multiset{p}]) == SumAll(a) + multiset{p}
  {
    var m := |a| - 1;
    var b := a[k := a[k] + multiset{p}];
    if k == m {
      assert b[..m] == a[..m];
    } else {
      SumAllAdd(a[..m], k, p);
      assert b[..m] == a[..m][k := a[k] + multiset{p}];
    }
  }

  lemma {:induction false} SumAllEmpty(a: seq<multiset<Particle>>)
    requires forall k | 0 <= k < |a| :: a[k] == multiset{}
    ensures SumAll(a) == multiset{}
  {
    if a != [] { SumAllEmpty(a[..|a| - 1]); }
  }

  lemma {:induction false} DwellersAreAll(g: Grid, part: seq<Particle>, n: nat)
    requires g.Valid() && n == g.Count() && forall i | 0 <= i < |part| :: InBox(g, part[i])
    ensures SumAll(DwellersOfAll(g, part, n)) == multiset(part)
  {
    hide SumAll, HomeTile, InBox, Dwellers;
    if part == [] {
      NobodyHome(g, n);
    } else {
      var front, p := part[..|part| - 1], part[|part| - 1];
      DwellersAreAll(g, front, n);
      HomeInTile(g, p);
      var a, m := DwellersOfAll(g, front, n), HomeTile(g, p);
      assert part == front + [p];
      forall k | 0 <= k < n ensures DwellersOfAll(g, part, n)[k] == a[m := a[m] + multiset{p}][k] {
        LastDweller(g, front, p, k);
      }
      assert DwellersOfAll(g, part, n) == a[m := a[m] + multiset{p}];
      SumAllAdd(a, m, p);
      MultisetSnoc(front, p);
    }
  }

  lemma NobodyHome(g: Grid, n: nat)
    requires g.Valid()
    ensures SumAll(DwellersOfAll(g, [], n)) == multiset{}
  {
    SumAllEmpty(DwellersOfAll(g, [], n));
  }

  lemma LastDweller(g: Grid, front: seq<Particle>, p: Particle, k: int)
    requires g.Valid()
    ensures multiset(Dwellers(g, front + [p], k)) == multiset(Dwellers(g, front, k)) + if HomeTile(g, p) == k
            then multiset{p} else multiset{}
  {
    hide HomeTile;
    assert (front + [p])[..|front|] == front;
    if HomeTile(g, p) == k { MultisetSnoc(Dwellers(g, front, k), p); }
  }

  /** Main result: without overflow the tiles hold all particles of part, each in its tile; this
      is a state that cpporder2l can start from and that cppcheck2l finds no fault with. */
  lemma InputSorts(g: Grid, part: seq<Particle>, rows: Contents, n: seq<int>)
    requires g.Valid() && |rows| == |n| == g.Count() && forall i | 0 <= i < |part| :: InBox(g, part[i])
    requires forall k | 0 <= k < |rows| :: n[k] <= |rows[k]| && Collected(rows[k], n[k], Dwellers(g, part, k))
    ensures Filled(g, rows, n) && SortedTiles(g, rows, n)
    ensures SumAll(AllBefore(g, rows, n)) == multiset(part)
  {
    hide InBox, InTile, SumAll, Dwellers;
    forall k | 0 <= k < |rows|
      ensures 0 <= n[k] && rows[k][..n[k]] == Dwellers(g, part, k) && SortedRow(g, k, rows[k], n[k]) {
      assert rows[k][..n[k]] == Dwellers(g, part, k);
      forall j | 0 <= j < n[k] ensures InTile(g, k, rows[k][j]) {
        assert rows[k][j] in rows[k][..n[k]];
        DwellersInTile(g, part, k, rows[k][j]);
      }
    }
    DwellersAreAll(g, part, |rows|);
    assert AllBefore(g, rows, n) == DwellersOfAll(g, part, |rows|);
  }
}
