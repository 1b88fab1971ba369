/** cpporder2l, tile by tile: the three loops over tiles that find, buffer and move the particles
    which have left their tile. */
module Reorder {
  import opened Tiles
  import opened Holes
  import opened Blocks

  // ------------------------------------------------ rows of arrays

  /** The elements of one tile. */
  function Row<T>(a: array2<T>, k: nat): (row: seq<T>)
    requires k < a.Length0
    reads a
    ensures |row| == a.Length1 && forall j | 0 <= j < a.Length1 :: row[j] == a[k, j]
  {
    seq(a.Length1, j requires 0 <= j < a.Length1 reads a => a[k, j])
  }

  function Rows<T>(a: array2<T>): (rows: seq<seq<T>>)
    reads a
    ensures |rows| == a.Length0 && forall k: nat | k < a.Length0 :: rows[k] == Row(a, k)
  {
    seq(a.Length0, k requires 0 <= k < a.Length0 reads a => Row(a, k))
  }

  // ------------------------------------------------ first loop: who leaves

  function Directions(g: Grid, k: int, round: real -> real, s: seq<Particle>): (dirs: seq<int>)
    requires g.mx1 >= 1
    ensures |dirs| == |s| && forall j | 0 <= j < |s| :: dirs[j] == Settle(g, k, round, s[j]).dir && 0 <= dirs[j] <= 8
  {
    seq(|s|, j requires 0 <= j < |s| => SettleRange(g, k, round, s[j]); Settle(g, k, round, s[j]).dir)
  }

  /** The tile after its first n particles have been wrapped. */
  function SettleFirst(g: Grid, k: int, round: real -> real, s: seq<Particle>, n: int): (t: seq<Particle>)
    requires g.mx1 >= 1
    ensures |t| == |s|
  {
    seq(|s|, j requires 0 <= j < |s| => if j < n then Settle(g, k, round, s[j]).p else s[j])
  }

  lemma SettleNext(g: Grid, k: int, round: real -> real, s: seq<Particle>, n: nat)
    requires g.mx1 >= 1 && n < |s|
    ensures SettleFirst(g, k, round, s, n)[n] == s[n]
    ensures SettleFirst(g, k, round, s, n)[n := Settle(g, k, round, s[n]).p] == SettleFirst(g, k, round, s, n + 1)
  {
    hide Settle;
  }

  /** The row of ihole for the entries hs; hs does not fit when there are more than ntmax. */
  ghost predicate StoresHoles(row: seq<Hole>, hs: seq<Hole>) {
    && |row| > 0
    && (if |hs| < |row| then row[0].at == |hs| && row[1..|hs| + 1] == hs else row[0].at == -|hs|)
  }

  ghost predicate StoresCounts(row: seq<int>, hs: seq<Hole>) {
    |row| == 8 && forall d | 0 <= d < 8 :: row[d] == CountDir(hs, d + 1)
  }

  /** Entries stored so far, while the loop runs. */
  ghost predicate StoredSoFar(row: seq<Hole>, hs: seq<Hole>) {
    forall i | 0 <= i < |hs| && i + 1 < |row| :: row[i + 1] == hs[i]
  }

  /** One coordinate of one particle: the new value and what it adds to ist, `step` being 1 or 3. */
  method MoveCoordinate(dx: real, edgel: int, edger: int, n: int, step: int, round: real -> real)
    returns (x: real, ist: int)
    ensures x == MoveAxis(dx, edgel, edger, n, round).pos && ist == step * MoveAxis(dx, edgel, edger, n, round).side
  {
    x, ist := dx, 0;
    if dx >= edger as real {
      if dx >= n as real {
        x := dx - n as real;
      }
      ist := 2 * step;
    } else if dx < edgel as real {
      if dx < 0.0 {
        x := round(dx + n as real);
        if x < n as real {
          ist := step;
        } else {
          x := 0.0;
        }
      } else {
        ist := step;
      }
    }
  }

  /** The edges of a tile, as the loops over tiles compute them. */
  method TileEdges(g: Grid, k: nat) returns (edgelx: int, edgerx: int, edgely: int, edgery: int)
    requires g.mx1 >= 1
    ensures edgelx == Edge(TileX(g, k), g.mx) && edgerx == UpperEdge(TileX(g, k), g.mx, g.nx)
    ensures edgely == Edge(TileY(g, k), g.my) && edgery == UpperEdge(TileY(g, k), g.my, g.ny)
  {
    var noff := k / g.mx1;
    var moff := g.my * noff;
    noff := g.mx * (k - g.mx1 * noff);
    var nn := if g.mx < g.nx - noff then g.mx else g.nx - noff;
    var mm := if g.my < g.ny - moff then g.my else g.ny - moff;
    EdgeIs(TileX(g, k), g.mx);
    EdgeIs(TileY(g, k), g.my);
    edgelx, edgerx, edgely, edgery := noff, noff + nn, moff, moff + mm;
  }

  /** One particle of the first loop. */
  method MoveParticle(g: Grid, k: nat, round: real -> real, p: Particle, edgelx: int, edgerx: int, edgely: int,
                      edgery: int)
    returns (q: Particle, ist: int)
    requires g.mx1 >= 1
    requires edgelx == Edge(TileX(g, k), g.mx) && edgerx == UpperEdge(TileX(g, k), g.mx, g.nx)
    requires edgely == Edge(TileY(g, k), g.my) && edgery == UpperEdge(TileY(g, k), g.my, g.ny)
    ensures Settled(q, ist) == Settle(g, k, round, p)
  {
    hide MoveAxis;
    var x, istx := MoveCoordinate(p.x, edgelx, edgerx, g.nx, 1, round);
    var y, isty := MoveCoordinate(p.y, edgely, edgery, g.ny, 3, round);
    q, ist := p.(x := x, y := y), istx + isty;
  }

  /** One tile of the first loop. */
  method FindLeaving(g: Grid, ppart: array2<Particle>, npp: nat, ncl: array2<int>, ihole: array2<Hole>, k: nat,
                     round: real -> real, irc: int)
    returns (irc': int)
    requires g.mx1 >= 1 && k < ppart.Length0 && npp <= ppart.Length1
    requires k < ncl.Length0 && ncl.Length1 == 8 && k < ihole.Length0 && ihole.Length1 >= 1
    modifies ppart, ncl, ihole
    ensures var s := old(Row(ppart, k))[..npp];
            var hs := Leaving(Directions(g, k, round, s), npp);
            && Row(ppart, k) == SettleFirst(g, k, round, old(Row(ppart, k)), npp)
            && StoresCounts(Row(ncl, k), hs) && StoresHoles(Row(ihole, k), hs)
            && irc' == if |hs| >= ihole.Length1 then |hs| else irc
    ensures forall r, c | 0 <= r < ppart.Length0 && 0 <= c < ppart.Length1 && r != k :: ppart[r, c] == old(ppart[r, c])
    ensures forall r, c | 0 <= r < ncl.Length0 && 0 <= c < 8 && r != k :: ncl[r, c] == old(ncl[r, c])
    ensures forall r, c | 0 <= r < ihole.Length0 && 0 <= c < ihole.Length1 && r != k :: ihole[r, c] == old(ihole[r, c])
  {
    hide Settle, Edge, UpperEdge, TileX, TileY, CountDir, StoresCounts, StoredSoFar, StoresHoles;
    ghost var s0 := Row(ppart, k);
    ghost var dirs := Directions(g, k, round, s0[..npp]);
    var ntmax := ihole.Length1 - 1;
    var ih, nh := 0, 0;
    var edgelx, edgerx, edgely, edgery := TileEdges(g, k);
    ClearCounts(ncl, k);
    NothingStored(Row(ihole, k));
    for j := 0 to npp
      invariant Row(ppart, k) == SettleFirst(g, k, round, s0, j)
      invariant ih == |Leaving(dirs, j)| && nh == if ih > ntmax then 1 else 0
      invariant StoresCounts(Row(ncl, k), Leaving(dirs, j)) && StoredSoFar(Row(ihole, k), Leaving(dirs, j))
      invariant forall r, c | 0 <= r < ppart.Length0 && 0 <= c < ppart.Length1 && r != k ::
          ppart[r, c] == old(ppart[r, c])
      invariant forall r, c | 0 <= r < ncl.Length0 && 0 <= c < 8 && r != k :: ncl[r, c] == old(ncl[r, c])
      invariant forall r, c | 0 <= r < ihole.Length0 && 0 <= c < ihole.Length1 && r != k ::
          ihole[r, c] == old(ihole[r, c])
    {
      ghost var row := Row(ppart, k);
      SettleNext(g, k, round, s0, j);
      var q, ist := MoveParticle(g, k, round, ppart[k, j], edgelx, edgerx, edgely, edgery);
      ppart[k, j] := q;
      assert Row(ppart, k) == row[j := q];
      assert ist == dirs[j];
      LeavingNext(dirs, j);
      if ist > 0 {
        RecordHole(ncl, ihole, k, ih, Hole(j + 1, ist), Leaving(dirs, j));
        ih := ih + 1;
        if ih > ntmax {
          nh := 1;
        }
      }
    }
    ghost var holes := Row(ihole, k);
    irc' := irc;
    var flag := ih;
    if nh > 0 {
      irc' := ih;
      flag := -ih;
    }
    ihole[k, 0] := ihole[k, 0].(at := flag);
    FinishHoles(holes, Row(ihole, k), Leaving(dirs, npp));
  }

  lemma LeavingNext(dirs: seq<int>, j: nat)
    requires j < |dirs|
    ensures dirs[j] > 0 ==> Leaving(dirs, j + 1) == Leaving(dirs, j) + [Hole(j + 1, dirs[j])]
    ensures dirs[j] <= 0 ==> Leaving(dirs, j + 1) == Leaving(dirs, j)
  {
  }

  lemma StoredNext(row: seq<Hole>, hs: seq<Hole>, h: Hole)
    requires StoredSoFar(row, hs)
    ensures |hs| + 1 < |row| ==> StoredSoFar(row[|hs| + 1 := h], hs + [h])
    ensures |hs| + 1 >= |row| ==> StoredSoFar(row, hs + [h])
  {
  }

  /** Counts entry number ih + 1 and stores it if there is room. */
  method RecordHole(ncl: array2<int>, ihole: array2<Hole>, k: nat, ih: nat, h: Hole, ghost hs: seq<Hole>)
    requires k < ncl.Length0 && ncl.Length1 == 8 && k < ihole.Length0 && ihole.Length1 >= 1 && 1 <= h.dir <= 8
             && ih == |hs|
    requires StoresCounts(Row(ncl, k), hs) && StoredSoFar(Row(ihole, k), hs)
    modifies ncl, ihole
    ensures StoresCounts(Row(ncl, k), hs + [h]) && StoredSoFar(Row(ihole, k), hs + [h])
    ensures forall r, c | 0 <= r < ncl.Length0 && 0 <= c < 8 && r != k :: ncl[r, c] == old(ncl[r, c])
    ensures forall r, c | 0 <= r < ihole.Length0 && 0 <= c < ihole.Length1 && r != k :: ihole[r, c] == old(ihole[r, c])
  {
    hide StoresCounts, StoredSoFar;
    ghost var counts, holes := Row(ncl, k), Row(ihole, k);
    CountsNext(counts, hs, h);
    StoredNext(holes, hs, h);
    ncl[k, h.dir - 1] := ncl[k, h.dir - 1] + 1;
    if ih + 1 < ihole.Length1 {
      ihole[k, ih + 1] := h;
    }
    assert Row(ncl, k) == counts[h.dir - 1 := counts[h.dir - 1] + 1];
    assert Row(ihole, k) == if ih + 1 < |holes| then holes[ih + 1 := h] else holes;
  }

  method ClearCounts(ncl: array2<int>, k: nat)
    requires k < ncl.Length0 && ncl.Length1 == 8
    modifies ncl
    ensures StoresCounts(Row(ncl, k), [])
    ensures forall r, c | 0 <= r < ncl.Length0 && 0 <= c < 8 && r != k :: ncl[r, c] == old(ncl[r, c])
  {
    for j := 0 to 8
      invariant forall c | 0 <= c < j :: ncl[k, c] == 0
      invariant forall r, c | 0 <= r < ncl.Length0 && 0 <= c < 8 && r != k :: ncl[r, c] == old(ncl[r, c])
    {
      ncl[k, j] := 0;
    }
  }

  lemma CountsNext(row: seq<int>, hs: seq<Hole>, h: Hole)
    requires StoresCounts(row, hs) && 1 <= h.dir <= 8
    ensures StoresCounts(row[h.dir - 1 := row[h.dir - 1] + 1], hs + [h])
  {
    hide CountDir;
    forall d | 0 <= d < 8 { CountSnoc(hs, h, d + 1); }
  }

  lemma NothingStored(row: seq<Hole>)
    ensures StoredSoFar(row, [])
  {
  }

  lemma FinishHoles(before: seq<Hole>, after: seq<Hole>, hs: seq<Hole>)
    requires StoredSoFar(before, hs) && |before| == |after| > 0 && forall i | 1 <= i < |before| :: after[i] == before[i]
    requires after[0].at == if |hs| >= |after| then -|hs| else |hs|
    ensures StoresHoles(after, hs)
  {
    if |hs| < |after| {
      forall i | 0 <= i < |hs| ensures after[1..|hs| + 1][i] == hs[i] {
        var next := i + 1;
        assert before[next] == hs[i];
      }
    }
  }
}
