/** cpporder2l and cpporderf2l over all tiles. */
module ParticleOrder {
  import opened Tiles
  import opened Holes
  import opened Reorder
  import opened Buffers

  type Contents = seq<seq<Particle>>

  // ------------------------------------------------ what the tiles exchange

  /** The entries of every tile belong to its first n[k] particles. */
  ghost predicate HolesFit(g: Grid, t: Contents, n: seq<int>, hss: seq<seq<Hole>>) {
    && g.Valid() && |t| == |n| == |hss| == g.Count()
    && forall k | 0 <= k < |t| :: 0 <= n[k] <= |t[k]| && Ascending(hss[k], n[k])
  }

  /** What the neighbours of tile k send to it, by direction. */
  ghost function Sent(g: Grid, t: Contents, n: seq<int>, hss: seq<seq<Hole>>, k: int): (outs: seq<seq<Particle>>)
    requires HolesFit(g, t, n, hss) && 0 <= k < |t|
    ensures |outs| == 8
  {
    seq(8, d requires 0 <= d < 8 => SourceDestInverse(g, k, d); Out(t[Source(g, k, d)], hss[Source(g, k, d)], d + 1))
  }

  /** The particles of tile k afterwards: those that stay and those received. */
  ghost function After(g: Grid, t: Contents, n: seq<int>, hss: seq<seq<Hole>>, k: int): multiset<Particle>
    requires HolesFit(g, t, n, hss) && 0 <= k < |t|
  {
    Live(t[k], n[k], Unfilled(hss[k], 0)) + multiset(Received(Sent(g, t, n, hss, k), 8))
  }

  ghost function SizeAfter(g: Grid, t: Contents, n: seq<int>, hss: seq<seq<Hole>>, k: int): int
    requires HolesFit(g, t, n, hss) && 0 <= k < |t|
  {
    n[k] - |hss[k]| + |Received(Sent(g, t, n, hss, k), 8)|
  }

  // ------------------------------------------------ the second loop

  ghost predicate Recorded(counts: seq<int>, holes: seq<Hole>, hs: seq<Hole>) {
    StoresCounts(counts, hs) && StoresHoles(holes, hs) && |hs| < |holes|
  }

  ghost predicate BufferedAt(buff: seq<Particle>, counts: seq<int>, s: seq<Particle>, hs: seq<Hole>) {
    Ascending(hs, |s|) && Buffered(buff, counts, s, hs)
  }

  /** One tile of the second loop, in the terms of all tiles. */
  method BufferTile(ppart: array2<Particle>, ppbuff: array2<Particle>, ncl: array2<int>, ihole: array2<Hole>, k: nat,
                    irc: int, ghost hs: seq<Hole>)
    returns (irc': int)
    requires k < ppart.Length0 && k < ppbuff.Length0 && k < ncl.Length0 && ncl.Length1 == 8 && k < ihole.Length0
             && ppart != ppbuff
    requires Ascending(hs, ppart.Length1) && Recorded(Row(ncl, k), Row(ihole, k), hs)
    modifies ppbuff, ncl
    ensures irc' == if |hs| > ppbuff.Length1 then |hs| else irc
    ensures |hs| <= ppbuff.Length1 ==> BufferedAt(Row(ppbuff, k), Row(ncl, k), Row(ppart, k), hs)
    ensures forall h: nat | h < ppbuff.Length0 && h != k :: Row(ppbuff, h) == old(Row(ppbuff, h))
    ensures forall h: nat | h < ncl.Length0 && h != k :: Row(ncl, h) == old(Row(ncl, h))
  {
    hide StoresCounts, StoresHoles, Buffered, Ascending;
    irc' := BufferLeaving(ppart, ppbuff, ncl, ihole, k, irc, hs);
  }

  method BufferAll(g: Grid, ppart: array2<Particle>, ppbuff: array2<Particle>, ncl: array2<int>, ihole: array2<Hole>,
                   irc: int, ghost hss: seq<seq<Hole>>)
    returns (irc': int)
    requires g.Valid() && g.Count() == ppart.Length0 == ppbuff.Length0 == ncl.Length0 == ihole.Length0 == |hss|
             && ncl.Length1 == 8 && ppart != ppbuff
    requires irc == 0 && forall k: nat | k < |hss| ::
               Ascending(hss[k], ppart.Length1) && Recorded(Row(ncl, k), Row(ihole, k), hss[k])
    modifies ppbuff, ncl
    ensures irc' >= 0 && (irc' == 0 <==> forall k: nat | k < |hss| :: |hss[k]| <= ppbuff.Length1)
    ensures irc' == 0 ==> forall k: nat | k < |hss| :: BufferedAt(Row(ppbuff, k), Row(ncl, k), Row(ppart, k), hss[k])
  {
    hide BufferedAt, Recorded, Ascending, Row;
    irc' := irc;
    for k := 0 to ppart.Length0
      invariant irc' >= 0 && (irc' == 0 <==> forall h: nat | h < k :: |hss[h]| <= ppbuff.Length1)
      invariant irc' == 0 ==> forall h: nat | h < k :: BufferedAt(Row(ppbuff, h), Row(ncl, h), Row(ppart, h), hss[h])
      invariant forall h: nat | k <= h < |hss| :: Recorded(Row(ncl, h), Row(ihole, h), hss[h])
    {
      irc' := BufferTile(ppart, ppbuff, ncl, ihole, k, irc', hss[k]);
    }
  }

  // ------------------------------------------------ the third loop

  /** Tile k, with its new size, holds exactly the particles it should if it has the room. */
  ghost predicate Done(g: Grid, t: Contents, n: seq<int>, hss: seq<seq<Hole>>, row: seq<Particle>, size: int, k: nat)
    requires HolesFit(g, t, n, hss) && k < |t|
  {
    && size == SizeAfter(g, t, n, hss, k) && 0 <= size
    && (size <= |row| ==> multiset(row[..size]) == After(g, t, n, hss, k))
  }

  lemma NeighboursSend(g: Grid, t: Contents, n: seq<int>, hss: seq<seq<Hole>>, buffs: Contents, counts: seq<seq<int>>,
                       k: nat)
    requires HolesFit(g, t, n, hss) && k < |t| && |buffs| == |counts| == |t|
    requires forall h | 0 <= h < |t| :: BufferedAt(buffs[h], counts[h], t[h], hss[h])
    ensures AllSend(g, k, buffs, counts, Sent(g, t, n, hss, k))
  {
    hide Sends, Buffered, Out, Source, Ascending;
    forall d: nat | d < 8
      ensures 0 <= Source(g, k, d) < |buffs| && Source(g, k, d) < |counts| && |counts[Source(g, k, d)]| == 8
      ensures Sends(buffs[Source(g, k, d)], counts[Source(g, k, d)], d, Sent(g, t, n, hss, k)[d])
    {
      SourceDestInverse(g, k, d);
      var h := Source(g, k, d);
      assert BufferedAt(buffs[h], counts[h], t[h], hss[h]);
      BufferedSends(buffs[h], counts[h], t[h], hss[h], d);
      CountsLength(buffs[h], counts[h], t[h], hss[h]);
    }
  }

  lemma CountsLength(buff: seq<Particle>, counts: seq<int>, s: seq<Particle>, hs: seq<Hole>)
    requires Ascending(hs, |s|) && Buffered(buff, counts, s, hs)
    ensures |counts| == 8
  {
  }

  /** One tile of the third loop, in the terms of all tiles. */
  method TakeInTile(g: Grid, ppart: array2<Particle>, kpic: array<int>, ppbuff: array2<Particle>, ncl: array2<int>,
                    ihole: array2<Hole>, k: nat, irc: int,
                    ghost t: Contents, ghost n: seq<int>, ghost hss: seq<seq<Hole>>)
    returns (irc': int)
    requires g.Count() == ppart.Length0 == ppbuff.Length0 == kpic.Length == ncl.Length0 == ihole.Length0
             && ncl.Length1 == 8 && ppart != ppbuff
    requires HolesFit(g, t, n, hss) && k < |t| && t[k] == Row(ppart, k) && n[k] == kpic[k]
    requires StoresHoles(Row(ihole, k), hss[k]) && |hss[k]| < ihole.Length1
    requires forall h: nat | h < |t| :: BufferedAt(Row(ppbuff, h), Row(ncl, h), t[h], hss[h])
    modifies ppart, kpic
    ensures Done(g, t, n, hss, Row(ppart, k), kpic[k], k)
    ensures irc' == if SizeAfter(g, t, n, hss, k) > ppart.Length1 then kpic[k] else irc
    ensures forall h: nat | h < ppart.Length0 && h != k :: Row(ppart, h) == old(Row(ppart, h))
    ensures forall h | 0 <= h < kpic.Length && h != k :: kpic[h] == old(kpic[h])
  {
    hide BufferedAt, StoresHoles, Ascending, AllSend, Sent, Live, Received;
    NeighboursSend(g, t, n, hss, Rows(ppbuff), Rows(ncl), k);
    irc' := TakeAll(g, ppart, kpic, ppbuff, ncl, ihole, k, irc, hss[k], Sent(g, t, n, hss, k));
  }

  method TakeInAll(g: Grid, ppart: array2<Particle>, kpic: array<int>, ppbuff: array2<Particle>, ncl: array2<int>,
                   ihole: array2<Hole>, irc: int,
                   ghost t: Contents, ghost n: seq<int>, ghost hss: seq<seq<Hole>>)
    returns (irc': int)
    requires g.Count() == ppart.Length0 == ppbuff.Length0 == kpic.Length == ncl.Length0 == ihole.Length0
             && ncl.Length1 == 8 && ppart != ppbuff
    requires HolesFit(g, t, n, hss) && forall k: nat | k < |t| :: t[k] == Row(ppart, k) && n[k] == kpic[k]
    requires irc == 0 && forall k: nat | k < |hss| :: StoresHoles(Row(ihole, k), hss[k]) && |hss[k]| < ihole.Length1
    requires forall h: nat | h < |t| :: BufferedAt(Row(ppbuff, h), Row(ncl, h), t[h], hss[h])
    modifies ppart, kpic
    ensures forall k: nat | k < |hss| :: Done(g, t, n, hss, Row(ppart, k), kpic[k], k)
    ensures irc' == 0 <==> forall k: nat | k < |hss| :: SizeAfter(g, t, n, hss, k) <= ppart.Length1
  {
    hide BufferedAt, StoresHoles, Ascending, SizeAfter, After, Row;
    irc' := irc;
    for k := 0 to ppart.Length0
      invariant irc' >= 0 && (irc' == 0 <==> forall h: nat | h < k :: SizeAfter(g, t, n, hss, h) <= ppart.Length1)
      invariant forall h: nat | h < k :: Done(g, t, n, hss, Row(ppart, h), kpic[h], h)
      invariant forall h: nat | k <= h < |hss| :: Row(ppart, h) == t[h] && kpic[h] == n[h]
    {
      irc' := TakeInTile(g, ppart, kpic, ppbuff, ncl, ihole, k, irc', t, n, hss);
    }
  }

  // ------------------------------------------------ the two routines

  /** cpporderf2l: the second and the third loop, for entries that are already in place. */
  method Cpporderf2l(g: Grid, ppart: array2<Particle>, ppbuff: array2<Particle>, kpic: array<int>, ncl: array2<int>,
                     ihole: array2<Hole>, irc: int,
                     ghost t: Contents, ghost n: seq<int>, ghost hss: seq<seq<Hole>>)
    returns (irc': int)
    requires g.Count() == ppart.Length0 == ppbuff.Length0 == kpic.Length == ncl.Length0 == ihole.Length0
             && ncl.Length1 == 8 && ppart != ppbuff && irc == 0
    requires HolesFit(g, t, n, hss) && forall k: nat | k < |t| :: t[k] == Row(ppart, k) && n[k] == kpic[k]
    requires forall k: nat | k < |hss| :: Recorded(Row(ncl, k), Row(ihole, k), hss[k])
    modifies ppart, ppbuff, kpic, ncl
    ensures irc' == 0 <==>
            forall k: nat | k < |hss| :: |hss[k]| <= ppbuff.Length1 && SizeAfter(g, t, n, hss, k) <= ppart.Length1
    ensures irc' == 0 ==> forall k: nat | k < |hss| :: Done(g, t, n, hss, Row(ppart, k), kpic[k], k)
  {
    hide BufferedAt, StoresHoles, StoresCounts, Ascending, SizeAfter, Done, Row;
    AscendingInRow(g, t, n, hss);
    irc' := BufferAll(g, ppart, ppbuff, ncl, ihole, irc, hss);
    if irc' > 0 { return; }
    irc' := TakeInAll(g, ppart, kpic, ppbuff, ncl, ihole, irc', t, n, hss);
  }

  lemma AscendingInRow(g: Grid, t: Contents, n: seq<int>, hss: seq<seq<Hole>>)
    requires HolesFit(g, t, n, hss)
    ensures forall k: nat | k < |hss| :: Ascending(hss[k], |t[k]|)
  {
    forall k: nat | k < |hss| ensures Ascending(hss[k], |t[k]|) {
      assert Ascending(hss[k], n[k]);
    }
  }

  /** The entries cpporder2l makes for tile k. */
  function HolesOf(g: Grid, k: int, round: real -> real, s: seq<Particle>): (hs: seq<Hole>)
    requires g.mx1 >= 1
    ensures Ascending(hs, |s|)
  {
    LeavingAscending(Directions(g, k, round, s), |s|);
    Leaving(Directions(g, k, round, s), |s|)
  }

  /** The tiles as the particles were pushed: row k, of which the first n[k] count. */
  ghost predicate Filled(g: Grid, rows: Contents, n: seq<int>) {
    && g.Valid() && |rows| == |n| == g.Count()
    && forall k | 0 <= k < |rows| :: 0 <= n[k] <= |rows[k]|
  }

  ghost function AllHoles(g: Grid, round: real -> real, rows: Contents, n: seq<int>): (hss: seq<seq<Hole>>)
    requires Filled(g, rows, n)
    ensures |hss| == |rows| && forall k | 0 <= k < |rows| ::
              hss[k] == HolesOf(g, k, round, rows[k][..n[k]]) && Ascending(hss[k], n[k])
  {
    seq(|rows|, k requires 0 <= k < |rows| => HolesOf(g, k, round, rows[k][..n[k]]))
  }

  ghost function AllSettled(g: Grid, round: real -> real, rows: Contents, n: seq<int>): (t: Contents)
    requires Filled(g, rows, n)
    ensures |t| == |rows| && forall k | 0 <= k < |rows| :: t[k] == SettleFirst(g, k, round, rows[k], n[k])
  {
    seq(|rows|, k requires 0 <= k < |rows| => SettleFirst(g, k, round, rows[k], n[k]))
  }

  lemma HolesFitAll(g: Grid, round: real -> real, rows: Contents, n: seq<int>)
    requires Filled(g, rows, n)
    ensures HolesFit(g, AllSettled(g, round, rows, n), n, AllHoles(g, round, rows, n))
  {
  }

  ghost predicate Found(counts: seq<int>, holes: seq<Hole>, hs: seq<Hole>) {
    StoresCounts(counts, hs) && StoresHoles(holes, hs)
  }

  method FindTile(g: Grid, ppart: array2<Particle>, npp: int, ncl: array2<int>, ihole: array2<Hole>, k: nat,
                  round: real -> real, irc: int)
    returns (irc': int)
    requires g.mx1 >= 1 && k < ppart.Length0 && 0 <= npp <= ppart.Length1
    requires k < ncl.Length0 && ncl.Length1 == 8 && k < ihole.Length0 && ihole.Length1 >= 1
    modifies ppart, ncl, ihole
    ensures var hs := HolesOf(g, k, round, old(Row(ppart, k))[..npp]);
            && Row(ppart, k) == SettleFirst(g, k, round, old(Row(ppart, k)), npp)
            && Found(Row(ncl, k), Row(ihole, k), hs)
            && irc' == if |hs| >= ihole.Length1 then |hs| else irc
    ensures forall h: nat | h < ppart.Length0 && h != k :: Row(ppart, h) == old(Row(ppart, h))
    ensures forall h: nat | h < ncl.Length0 && h != k :: Row(ncl, h) == old(Row(ncl, h))
    ensures forall h: nat | h < ihole.Length0 && h != k :: Row(ihole, h) == old(Row(ihole, h))
  {
    hide StoresCounts, StoresHoles, SettleFirst, Settle;
    irc' := FindLeaving(g, ppart, npp, ncl, ihole, k, round, irc);
  }

  /** The first loop. */
  method FindAll(g: Grid, ppart: array2<Particle>, kpic: array<int>, ncl: array2<int>, ihole: array2<Hole>,
                 round: real -> real, irc: int,
                 ghost rows: Contents, ghost n: seq<int>, ghost t: Contents, ghost hss: seq<seq<Hole>>)
    returns (irc': int)
    requires g.Count() == ppart.Length0 == kpic.Length == ncl.Length0 == ihole.Length0 && ncl.Length1 == 8
             && ihole.Length1 >= 1 && irc == 0
    requires Filled(g, rows, n) && |t| == |hss| == |rows| && forall k: nat | k < |rows| ::
               rows[k] == Row(ppart, k) && n[k] == kpic[k]
    requires t == AllSettled(g, round, rows, n) && hss == AllHoles(g, round, rows, n)
    modifies ppart, ncl, ihole
    ensures forall k: nat | k < |rows| :: Row(ppart, k) == t[k] && Found(Row(ncl, k), Row(ihole, k), hss[k])
    ensures irc' >= 0 && (irc' == 0 <==> forall k: nat | k < |rows| :: |hss[k]| < ihole.Length1)
  {
    hide Found, Row, HolesOf, SettleFirst, AllHoles, AllSettled;
    irc' := irc;
    for k := 0 to ppart.Length0
      invariant irc' >= 0 && (irc' == 0 <==> forall h: nat | h < k :: |hss[h]| < ihole.Length1)
      invariant forall h: nat | h < k :: Row(ppart, h) == t[h] && Found(Row(ncl, h), Row(ihole, h), hss[h])
      invariant forall h: nat | k <= h < |rows| :: Row(ppart, h) == rows[h]
    {
      irc' := FindTile(g, ppart, kpic[k], ncl, ihole, k, round, irc');
    }
  }

  /** Tile k after the whole routine, in terms of the tiles before it. */
  ghost function NewTile(g: Grid, round: real -> real, rows: Contents, n: seq<int>, k: int): multiset<Particle>
    requires Filled(g, rows, n) && 0 <= k < |rows|
  {
    HolesFitAll(g, round, rows, n);
    After(g, AllSettled(g, round, rows, n), n, AllHoles(g, round, rows, n), k)
  }

  ghost function NewSize(g: Grid, round: real -> real, rows: Contents, n: seq<int>, k: int): int
    requires Filled(g, rows, n) && 0 <= k < |rows|
  {
    HolesFitAll(g, round, rows, n);
    SizeAfter(g, AllSettled(g, round, rows, n), n, AllHoles(g, round, rows, n), k)
  }

  /** Tile k has room in ihole, in ppbuff and in ppart. */
  ghost predicate HasRoom(g: Grid, round: real -> real, rows: Contents, n: seq<int>, k: int, ntmax: int, npbmx: int,
                          nppmx: int)
    requires Filled(g, rows, n) && 0 <= k < |rows|
  {
    |AllHoles(g, round, rows, n)[k]| <= ntmax && |AllHoles(g, round, rows, n)[k]| <= npbmx
    && NewSize(g, round, rows, n, k) <= nppmx
  }

  /** cpporder2l: it reports an overflow exactly when some tile lacks room; otherwise every tile
      holds exactly the particles that stay in it or enter it. */
  method Cpporder2l(g: Grid, ppart: array2<Particle>, ppbuff: array2<Particle>, kpic: array<int>, ncl: array2<int>,
                    ihole: array2<Hole>, round: real -> real, irc: int)
    returns (irc': int)
    requires g.Valid() && g.Count() == ppart.Length0 == ppbuff.Length0 == kpic.Length == ncl.Length0 == ihole.Length0
    requires ncl.Length1 == 8 && ihole.Length1 >= 1 && ppart != ppbuff && irc == 0 && Filled(g, Rows(ppart), kpic[..])
    modifies ppart, ppbuff, kpic, ncl, ihole
    ensures Outcome(g, round, old(Rows(ppart)), old(kpic[..]), irc', Rows(ppart), kpic[..], ihole.Length1 - 1,
                    ppbuff.Length1, ppart.Length1)
  {
    hide Found, SettleFirst, HolesOf, AllHoles, AllSettled, SizeAfter, After, HolesFit, Done, Outcome;
    ghost var rows, n := Rows(ppart), kpic[..];
    ghost var hss, t := AllHoles(g, round, rows, n), AllSettled(g, round, rows, n);
    HolesFitAll(g, round, rows, n);
    irc' := FindAll(g, ppart, kpic, ncl, ihole, round, irc, rows, n, t, hss);
    if irc' == 0 {
      FoundIsRecorded(Rows(ncl), Rows(ihole), hss);
      irc' := Cpporderf2l(g, ppart, ppbuff, kpic, ncl, ihole, irc', t, n, hss);
    }
    Conclude(g, round, rows, n, t, hss, irc', Rows(ppart), kpic[..], ihole.Length1 - 1, ppbuff.Length1, ppart.Length1);
  }

  ghost predicate Outcome(g: Grid, round: real -> real, rows: Contents, n: seq<int>, irc: int, rows': Contents,
                          n': seq<int>, ntmax: int, npbmx: int, nppmx: int)
    requires Filled(g, rows, n)
  {
    && (irc == 0 <==> forall k: nat | k < |rows| :: HasRoom(g, round, rows, n, k, ntmax, npbmx, nppmx))
    && (irc == 0 ==> |rows'| == |n'| == |rows| && forall k: nat | k < |rows| ::
                       Holds(rows'[k], n'[k], NewTile(g, round, rows, n, k)))
  }

  /** The first `size` elements of the row are the particles of m. */
  ghost predicate Holds(row: seq<Particle>, size: int, m: multiset<Particle>) {
    0 <= size <= |row| && multiset(row[..size]) == m
  }

  lemma TileMeaning(g: Grid, round: real -> real, rows: Contents, n: seq<int>, t: Contents, hss: seq<seq<Hole>>, k: nat,
                    ntmax: int, npbmx: int, nppmx: int)
    requires Filled(g, rows, n) && k < |rows| && t == AllSettled(g, round, rows, n)
             && hss == AllHoles(g, round, rows, n)
    ensures HolesFit(g, t, n, hss)
    ensures NewSize(g, round, rows, n, k) == SizeAfter(g, t, n, hss, k)
    ensures NewTile(g, round, rows, n, k) == After(g, t, n, hss, k)
    ensures HasRoom(g, round, rows, n, k, ntmax, npbmx, nppmx) <==>
            |hss[k]| <= ntmax && |hss[k]| <= npbmx && SizeAfter(g, t, n, hss, k) <= nppmx
  {
    hide SettleFirst, HolesOf, AllHoles, AllSettled, SizeAfter, After, HolesFit;
    HolesFitAll(g, round, rows, n);
  }

  lemma Conclude(g: Grid, round: real -> real, rows: Contents, n: seq<int>, t: Contents, hss: seq<seq<Hole>>, irc: int,
                 rows': Contents, n': seq<int>, ntmax: int, npbmx: int, nppmx: int)
    requires Filled(g, rows, n) && |rows'| == |n'| == |rows| && forall k | 0 <= k < |rows'| :: |rows'[k]| == nppmx
    requires t == AllSettled(g, round, rows, n) && hss == AllHoles(g, round, rows, n) && HolesFit(g, t, n, hss)
    requires irc == 0 <==>
             forall k: nat | k < |hss| :: |hss[k]| <= ntmax && |hss[k]| <= npbmx && SizeAfter(g, t, n, hss, k) <= nppmx
    requires irc == 0 ==> forall k: nat | k < |hss| :: Done(g, t, n, hss, rows'[k], n'[k], k)
    ensures Outcome(g, round, rows, n, irc, rows', n', ntmax, npbmx, nppmx)
  {
    hide AllHoles, AllSettled, SizeAfter, After, HasRoom, NewTile, NewSize;
    forall k: nat | k < |rows|
      ensures HasRoom(g, round, rows, n, k, ntmax, npbmx, nppmx) <==>
              |hss[k]| <= ntmax && |hss[k]| <= npbmx && SizeAfter(g, t, n, hss, k) <= nppmx
    {
      TileMeaning(g, round, rows, n, t, hss, k, ntmax, npbmx, nppmx);
    }
    if irc == 0 {
      forall k: nat | k < |rows| ensures Holds(rows'[k], n'[k], NewTile(g, round, rows, n, k)) {
        assert Done(g, t, n, hss, rows'[k], n'[k], k);
        TileMeaning(g, round, rows, n, t, hss, k, ntmax, npbmx, nppmx);
      }
    }
  }

  lemma FoundIsRecorded(counts: seq<seq<int>>, holes: seq<seq<Hole>>, hss: seq<seq<Hole>>)
    requires |counts| == |holes| == |hss| && forall k: nat | k < |hss| ::
               Found(counts[k], holes[k], hss[k]) && |hss[k]| < |holes[k]|
    ensures forall k: nat | k < |hss| :: Recorded(counts[k], holes[k], hss[k])
  {
    hide StoresCounts, StoresHoles;
  }
}
