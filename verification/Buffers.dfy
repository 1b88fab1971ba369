/** The second and third loops of cpporder2l, which cpporderf2l has as well: departing particles
    are buffered in direction order, then each tile takes in what its neighbours have sent. */
module Buffers {
  import opened Tiles
  import opened Holes
  import opened Reorder

  // ------------------------------------------------ second loop: buffering

  /** The buffer of a tile holds its departing particles grouped by direction, and counts[d] is
      the end of the group of direction d + 1. */
  ghost predicate Buffered(buff: seq<Particle>, counts: seq<int>, s: seq<Particle>, hs: seq<Hole>)
    requires Ascending(hs, |s|)
  {
    |counts| == 8 && forall d: nat | d < 8 :: Group(buff, counts, s, hs, d)
  }

  ghost predicate Group(buff: seq<Particle>, counts: seq<int>, s: seq<Particle>, hs: seq<Hole>, d: nat)
    requires Ascending(hs, |s|) && |counts| == 8 && d < 8
  {
    && counts[d] == Off(hs, d + 1) && Off(hs, d) <= Off(hs, d + 1) <= |buff|
    && buff[Off(hs, d)..Off(hs, d + 1)] == Out(s, hs, d + 1)
  }

  /** After j entries: direction d + 1 has its first particles in place. */
  ghost predicate Segment(buff: seq<Particle>, counts: seq<int>, s: seq<Particle>, hs: seq<Hole>, j: nat, d: nat)
    requires Ascending(hs, |s|) && j <= |hs| && |counts| == 8 && d < 8
  {
    var out, start := Out(s, hs[..j], d + 1), Off(hs, d);
    && counts[d] == start + |out|
    && forall i | 0 <= i < |out| && start + i < |buff| :: buff[start + i] == out[i]
  }

  ghost predicate Segments(buff: seq<Particle>, counts: seq<int>, s: seq<Particle>, hs: seq<Hole>, j: nat)
    requires Ascending(hs, |s|) && j <= |hs|
  {
    |counts| == 8 && forall d: nat | d < 8 :: Segment(buff, counts, s, hs, j, d)
  }

  lemma NoSegments(buff: seq<Particle>, counts: seq<int>, s: seq<Particle>, hs: seq<Hole>)
    requires Ascending(hs, |s|) && |counts| == 8 && forall d: nat | d < 8 :: counts[d] == Off(hs, d)
    ensures Segments(buff, counts, s, hs, 0)
  {
    assert hs[..0] == [];
  }

  lemma HoleInRange(hs: seq<Hole>, n: nat, j: nat)
    requires Ascending(hs, n) && j < |hs|
    ensures 1 <= hs[j].at <= n && 1 <= hs[j].dir <= 8
  {
  }

  /** Entry j goes to the end of the group of its direction and to no other group. */
  lemma NextSegments(buff: seq<Particle>, counts: seq<int>, s: seq<Particle>, hs: seq<Hole>, j: nat)
    requires Ascending(hs, |s|) && j < |hs| && Segments(buff, counts, s, hs, j)
    ensures var h := hs[j];
            var ii := counts[h.dir - 1];
            && 0 <= ii < |hs| && ii == Off(hs, h.dir - 1) + CountDir(hs[..j], h.dir)
            && Segments(if ii < |buff| then buff[ii := s[h.at - 1]]
                        else buff, counts[h.dir - 1 := ii + 1], s, hs, j + 1)
  {
    hide Segment, Off, CountDir, Out, Ascending;
    HoleInRange(hs, |s|, j);
    var h := hs[j];
    var dir: nat := h.dir;
    assert Segment(buff, counts, s, hs, j, dir - 1);
    InGroup(buff, counts, s, hs, j);
    var ii, next := counts[dir - 1], j + 1;
    var buff', counts' := if ii < |buff| then buff[ii := s[h.at - 1]] else buff, counts[dir - 1 := ii + 1];
    forall d: nat | d < 8 ensures Segment(buff', counts', s, hs, next, d) {
      NextSegment(buff, counts, s, hs, j, d);
    }
  }

  lemma InGroup(buff: seq<Particle>, counts: seq<int>, s: seq<Particle>, hs: seq<Hole>, j: nat)
    requires Ascending(hs, |s|) && j < |hs| && |counts| == 8 && Segment(buff, counts, s, hs, j, hs[j].dir - 1)
    ensures var dir := hs[j].dir;
            counts[dir - 1] == Off(hs, dir - 1) + CountDir(hs[..j], dir)
            && Off(hs, dir - 1) <= counts[dir - 1] < Off(hs, dir) <= |hs|
  {
    hide Off, Out, CountDir;
    var dir := hs[j].dir;
    assert hs[..j + 1] == hs[..j] + [hs[j]];
    CountSnoc(hs[..j], hs[j], dir);
    GroupEnd(hs, dir - 1);
    CountGrows(hs, j + 1, dir);
    OffMonotone(hs, dir, 8);
    OffAll(hs);
  }

  lemma NextSegment(buff: seq<Particle>, counts: seq<int>, s: seq<Particle>, hs: seq<Hole>, j: nat, d: nat)
    requires Ascending(hs, |s|) && j < |hs| && Segments(buff, counts, s, hs, j) && d < 8
    ensures var h := hs[j];
            var ii := counts[h.dir - 1];
            Segment(if 0 <= ii < |buff| then buff[ii := s[h.at - 1]]
                    else buff, counts[h.dir - 1 := ii + 1], s, hs, j + 1, d)
  {
    hide Out, CountDir, Off;
    var h := hs[j];
    InGroup(buff, counts, s, hs, j);
    assert Segment(buff, counts, s, hs, j, d);
    assert hs[..j + 1] == hs[..j] + [h];
    CountSnoc(hs[..j], h, d + 1);
    OutSnoc(s, hs[..j], h, d + 1);
    CountGrows(hs, j, d + 1);
    GroupEnd(hs, d);
    if d + 1 < h.dir { OffMonotone(hs, d + 1, h.dir - 1); }
    if h.dir < d + 1 { OffMonotone(hs, h.dir, d); }
  }

  lemma GroupEnd(hs: seq<Hole>, d: nat)
    ensures Off(hs, d + 1) == Off(hs, d) + CountDir(hs, d + 1)
  {
  }

  /** No group has reached the end of the buffer. */
  ghost predicate Fits(hs: seq<Hole>, j: nat, cap: int)
    requires j <= |hs|
  {
    forall d: nat | d < 8 && CountDir(hs[..j], d + 1) > 0 :: Off(hs, d) + CountDir(hs[..j], d + 1) <= cap
  }

  lemma FitsNext(hs: seq<Hole>, n: nat, j: nat, cap: int)
    requires Ascending(hs, n) && j < |hs| && Fits(hs, j, cap)
             && Off(hs, hs[j].dir - 1) + CountDir(hs[..j], hs[j].dir) < cap
    ensures Fits(hs, j + 1, cap)
  {
    hide Off, CountDir;
    assert hs[..j + 1] == hs[..j] + [hs[j]];
    forall d: nat | d < 8 { CountSnoc(hs[..j], hs[j], d + 1); }
  }

  lemma {:induction false} FitsAll(hs: seq<Hole>, cap: nat, d: nat)
    requires Fits(hs, |hs|, cap) && d <= 8
    ensures Off(hs, d) <= cap
  {
    if d > 0 {
      FitsAll(hs, cap, d - 1);
      assert hs[..|hs|] == hs;
      var before: nat := d - 1;
      assert CountDir(hs[..|hs|], before + 1) == CountDir(hs, d);
    }
  }

  lemma AllSegments(buff: seq<Particle>, counts: seq<int>, s: seq<Particle>, hs: seq<Hole>)
    requires Ascending(hs, |s|) && Segments(buff, counts, s, hs, |hs|)
    ensures |counts| == 8 && counts[7] == |hs|
    ensures |hs| <= |buff| ==> Buffered(buff, counts, s, hs)
  {
    hide Off, Out, CountDir, Segment;
    assert hs[..|hs|] == hs;
    OffAll(hs);
    if |hs| <= |buff| {
      forall d: nat | d < 8 ensures Group(buff, counts, s, hs, d) {
        OffMonotone(hs, d + 1, 8);
        GroupEnd(hs, d);
        OneSegment(buff, counts, s, hs, d);
      }
    }
    GroupEnd(hs, 7);
    OneSegment(buff, counts, s, hs, 7);
  }

  lemma OneSegment(buff: seq<Particle>, counts: seq<int>, s: seq<Particle>, hs: seq<Hole>, d: nat)
    requires Ascending(hs, |s|) && |counts| == 8 && d < 8 && Segment(buff, counts, s, hs, |hs|, d)
    requires Off(hs, d) <= Off(hs, d + 1) == Off(hs, d) + CountDir(hs, d + 1)
    ensures counts[d] == Off(hs, d + 1)
    ensures Off(hs, d + 1) <= |buff| ==> buff[Off(hs, d)..Off(hs, d + 1)] == Out(s, hs, d + 1)
  {
    hide Off, Out, CountDir;
    assert hs[..|hs|] == hs;
  }

  /** The prefix scan of one row of ncl. */
  method ScanCounts(ncl: array2<int>, k: nat, ghost hs: seq<Hole>)
    requires k < ncl.Length0 && StoresCounts(Row(ncl, k), hs) && ncl.Length1 == 8
    modifies ncl
    ensures forall d: nat | d < 8 :: ncl[k, d] == Off(hs, d)
    ensures forall r, c | 0 <= r < ncl.Length0 && 0 <= c < 8 && r != k :: ncl[r, c] == old(ncl[r, c])
  {
    ghost var counts := Row(ncl, k);
    var isum := 0;
    for j := 0 to 8
      invariant isum == Off(hs, j)
      invariant forall d: nat | d < j :: ncl[k, d] == Off(hs, d)
      invariant forall d: nat | j <= d < 8 :: ncl[k, d] == counts[d]
      invariant forall r, c | 0 <= r < ncl.Length0 && 0 <= c < 8 && r != k :: ncl[r, c] == old(ncl[r, c])
    {
      var ist := ncl[k, j];
      ncl[k, j] := isum;
      isum := isum + ist;
      GroupEnd(hs, j);
    }
  }

  /** One tile of the second loop; the error value is the number of departing particles. */
  method BufferLeaving(ppart: array2<Particle>, ppbuff: array2<Particle>, ncl: array2<int>, ihole: array2<Hole>, k: nat,
                       irc: int, ghost hs: seq<Hole>)
    returns (irc': int)
    requires k < ppart.Length0 && k < ppbuff.Length0 && k < ncl.Length0 && ncl.Length1 == 8 && k < ihole.Length0
             && ppart != ppbuff
    requires Ascending(hs, ppart.Length1) && |hs| < ihole.Length1
    requires StoresCounts(Row(ncl, k), hs) && StoresHoles(Row(ihole, k), hs)
    modifies ppbuff, ncl
    ensures irc' == if |hs| > ppbuff.Length1 then |hs| else irc
    ensures |hs| <= ppbuff.Length1 ==> Buffered(Row(ppbuff, k), Row(ncl, k), Row(ppart, k), hs)
    ensures forall r, c | 0 <= r < ppbuff.Length0 && 0 <= c < ppbuff.Length1 && r != k ::
              ppbuff[r, c] == old(ppbuff[r, c])
    ensures forall r, c | 0 <= r < ncl.Length0 && 0 <= c < 8 && r != k :: ncl[r, c] == old(ncl[r, c])
  {
    hide Off, CountDir, Segments, Fits, Buffered;
    ghost var s := Row(ppart, k);
    ScanCounts(ncl, k, hs);
    var nh, ip := ihole[k, 0].at, 0;
    NoSegments(Row(ppbuff, k), Row(ncl, k), s, hs);
    NothingFits(hs, ppbuff.Length1);
    for j := 0 to nh
      invariant Segments(Row(ppbuff, k), Row(ncl, k), s, hs, j)
      invariant ip == 0 ==> Fits(hs, j, ppbuff.Length1)
      invariant ip != 0 ==> ip == 1 && |hs| > ppbuff.Length1
      invariant forall r, c | 0 <= r < ppbuff.Length0 && 0 <= c < ppbuff.Length1 && r != k ::
          ppbuff[r, c] == old(ppbuff[r, c])
      invariant forall r, c | 0 <= r < ncl.Length0 && 0 <= c < 8 && r != k :: ncl[r, c] == old(ncl[r, c])
    {
      ghost var buff, counts := Row(ppbuff, k), Row(ncl, k);
      HoleAt(Row(ihole, k), hs, j);
      var j1, ist := ihole[k, j + 1].at - 1, ihole[k, j + 1].dir;
      var ii := ncl[k, ist - 1];
      NextSegments(buff, counts, s, hs, j);
      if ii < ppbuff.Length1 {
        if ip == 0 { FitsNext(hs, ppart.Length1, j, ppbuff.Length1); }
        ppbuff[k, ii] := ppart[k, j1];
      } else {
        ip := 1;
      }
      ncl[k, ist - 1] := ii + 1;
      assert Row(ppbuff, k) == if ii < |buff| then buff[ii := s[j1]] else buff;
      assert Row(ncl, k) == counts[ist - 1 := ii + 1];
    }
    AllSegments(Row(ppbuff, k), Row(ncl, k), s, hs);
    irc' := irc;
    if ip > 0 {
      irc' := ncl[k, 7];
    } else {
      FitsAll(hs, ppbuff.Length1, 8);
      OffAll(hs);
    }
  }

  lemma NothingFits(hs: seq<Hole>, cap: int)
    ensures Fits(hs, 0, cap)
  {
    assert hs[..0] == [];
  }

  lemma HoleAt(row: seq<Hole>, hs: seq<Hole>, j: nat)
    requires StoresHoles(row, hs) && |hs| < |row| && j < |hs|
    ensures row[j + 1] == hs[j]
  {
    assert row[1..|hs| + 1][j] == hs[j];
  }

  // ------------------------------------------------ third loop: taking in

  /** The particles received from the first d directions, in the order they are taken. */
  function Received(outs: seq<seq<Particle>>, d: nat): seq<Particle>
    requires d <= |outs|
  {
    if d == 0 then [] else Received(outs, d - 1) + outs[d - 1]
  }

  /** One past the last place in use after ih particles have been taken in. */
  function Reach(n0: nat, holes: nat, ih: nat): nat {
    n0 + if ih > holes then ih - holes else 0
  }

  /** After ih particles have been taken in, npp is one past the last place in use. */
  ghost predicate TakenIn(row: seq<Particle>, n0: nat, hs: seq<Hole>, ih: nat, npp: int, stay: multiset<Particle>,
                          taken: multiset<Particle>) {
    && npp == Reach(n0, |hs|, ih)
    && (npp <= |row| ==> Live(row, npp, Unfilled(hs, ih)) == stay + taken)
  }

  /** A hole is filled, or the tile grows at its end. */
  lemma TakeNext(row: seq<Particle>, n0: nat, hs: seq<Hole>, ih: nat, npp: int, stay: multiset<Particle>,
                 taken: multiset<Particle>, p: Particle)
    requires Ascending(hs, n0) && n0 <= |row| && TakenIn(row, n0, hs, ih, npp, stay, taken)
    ensures var j1 := if ih < |hs| then hs[ih].at - 1 else npp;
            && 0 <= j1 && (ih < |hs| ==> j1 < |row|)
            && TakenIn(if j1 < |row| then row[j1 := p] else row, n0, hs, ih + 1, if ih < |hs| then npp
                       else npp + 1, stay, taken + multiset{p})
  {
    hide Live;
    if ih < |hs| {
      UnfilledNext(hs, n0, ih);
      var h := hs[ih].at - 1;
      LiveFill(row, npp, Unfilled(hs, ih), h, p);
      Regroup(stay, taken, p);
    } else if npp < |row| {
      assert Unfilled(hs, ih) == {} && Unfilled(hs, ih + 1) == {};
      var row' := row[npp := p];
      LiveNext(row', npp + 1, {});
      LiveSame(row, row', npp, {}, {});
      Regroup(stay, taken, p);
    }
  }

  /** Puts one particle into the next hole, or at the end. */
  method TakeIn(ppart: array2<Particle>, ihole: array2<Hole>, k: nat, nh: nat, ih: nat, npp: nat, p: Particle,
                ghost n0: nat, ghost hs: seq<Hole>,
                ghost stay: multiset<Particle>, ghost taken: multiset<Particle>)
    returns (npp': nat, j1: nat)
    requires k < ppart.Length0 && k < ihole.Length0 && nh == |hs| < ihole.Length1 && StoresHoles(Row(ihole, k), hs)
    requires Ascending(hs, n0) && n0 <= ppart.Length1 && TakenIn(Row(ppart, k), n0, hs, ih, npp, stay, taken)
             && npp == Reach(n0, nh, ih)
    modifies ppart
    ensures TakenIn(Row(ppart, k), n0, hs, ih + 1, npp', stay, taken + multiset{p})
    ensures npp' == Reach(n0, nh, ih + 1)
    ensures ih >= nh ==> j1 == npp' - 1
    ensures ih < nh ==> j1 < ppart.Length1
    ensures forall r, c | 0 <= r < ppart.Length0 && 0 <= c < ppart.Length1 && r != k :: ppart[r, c] == old(ppart[r, c])
  {
    hide TakenIn;
    ghost var row := Row(ppart, k);
    TakeNext(row, n0, hs, ih, npp, stay, taken, p);
    npp' := npp;
    if ih < nh {
      HoleAt(Row(ihole, k), hs, ih);
      j1 := ihole[k, ih + 1].at - 1;
    } else {
      j1 := npp;
      npp' := npp + 1;
    }
    if j1 < ppart.Length1 {
      ppart[k, j1] := p;
    }
    assert Row(ppart, k) == if j1 < |row| then row[j1 := p] else row;
  }

  /** The part of the buffer of tile h that goes in direction d, counted from 0. */
  ghost predicate Sends(buff: seq<Particle>, counts: seq<int>, d: nat, out: seq<Particle>) {
    && d < |counts| && 0 <= Start(counts, d) <= counts[d] <= |buff|
    && buff[Start(counts, d)..counts[d]] == out
  }

  function Start(counts: seq<int>, d: nat): int
    requires d < |counts|
  {
    if d > 0 then counts[d - 1] else 0
  }

  lemma BufferedSends(buff: seq<Particle>, counts: seq<int>, s: seq<Particle>, hs: seq<Hole>, d: nat)
    requires Ascending(hs, |s|) && Buffered(buff, counts, s, hs) && d < 8
    ensures Sends(buff, counts, d, Out(s, hs, d + 1))
  {
    hide Out, CountDir;
    assert Off(hs, 0) == 0;
    assert Group(buff, counts, s, hs, d);
    if d > 0 {
      var before: nat := d - 1;
      assert Group(buff, counts, s, hs, before);
    }
  }

  lemma BagOfNone<T>(taken: multiset<T>, out: seq<T>)
    ensures taken + multiset(out[..0]) == taken
  {
  }

  lemma BagOfMore<T>(taken: multiset<T>, out: seq<T>, j: nat)
    requires j < |out|
    ensures taken + multiset(out[..j + 1]) == (taken + multiset(out[..j])) + multiset{out[j]}
  {
    assert out[..j + 1] == out[..j] + [out[j]];
    MultisetSnoc(out[..j], out[j]);
    Regroup(taken, multiset(out[..j]), out[j]);
  }

  /** The particles of one direction. */
  method TakeDirection(ppart: array2<Particle>, ppbuff: array2<Particle>, ncl: array2<int>, ihole: array2<Hole>, k: nat,
                       h: nat, ii: nat, nh: nat, ih: nat, npp: nat, last: nat,
                       ghost n0: nat, ghost hs: seq<Hole>, ghost out: seq<Particle>, ghost stay: multiset<Particle>,
                       ghost taken: multiset<Particle>)
    returns (ih': nat, npp': nat, ist: int, last': nat)
    requires k < ppart.Length0 && k < ihole.Length0 && nh == |hs| < ihole.Length1 && StoresHoles(Row(ihole, k), hs)
    requires h < ppbuff.Length0 && h < ncl.Length0 && ncl.Length1 == 8 && ii < 8 && ppart != ppbuff
    requires Ascending(hs, n0) && n0 <= ppart.Length1 && TakenIn(Row(ppart, k), n0, hs, ih, npp, stay, taken)
    requires Sends(Row(ppbuff, h), Row(ncl, h), ii, out) && (ih > nh ==> last == npp - 1) && npp == Reach(n0, nh, ih)
    modifies ppart
    ensures ih' == ih + |out| && npp' == Reach(n0, nh, ih')
            && TakenIn(Row(ppart, k), n0, hs, ih', npp', stay, taken + multiset(out))
    ensures ist == if npp' > ppart.Length1 && |out| > 0 then 1 else 0
    ensures ih' > nh ==> last' == npp' - 1
    ensures forall r, c | 0 <= r < ppart.Length0 && 0 <= c < ppart.Length1 && r != k :: ppart[r, c] == old(ppart[r, c])
  {
    hide StoresHoles, Ascending, TakenIn;
    var ncoff := if ii > 0 then ncl[h, ii - 1] else 0;
    var ip := ncl[h, ii] - ncoff;
    ghost var buff := Row(ppbuff, h);
    ih', npp', ist, last' := ih, npp, 0, last;
    BagOfNone(taken, out);
    for j := 0 to ip
      invariant ih' == ih + j && npp' == Reach(n0, nh, ih')
      invariant TakenIn(Row(ppart, k), n0, hs, ih', npp', stay, taken + multiset(out[..j]))
      invariant ist == if npp' > ppart.Length1 && j > 0 then 1 else 0
      invariant ih' > nh ==> last' == npp' - 1
      invariant forall r, c | 0 <= r < ppart.Length0 && 0 <= c < ppart.Length1 && r != k ::
          ppart[r, c] == old(ppart[r, c])
    {
      assert ppbuff[h, j + ncoff] == buff[j + ncoff] == out[j];
      ghost var sum := taken + multiset(out[..j]);
      npp', last' := TakeIn(ppart, ihole, k, nh, ih', npp', ppbuff[h, j + ncoff], n0, hs, stay, sum);
      if last' >= ppart.Length1 { ist := 1; }
      ih' := ih' + 1;
      BagOfMore(taken, out, j);
    }
    assert out[..ip] == out;
  }

  /** Closes the holes that no particle has filled, from the last one on, with particles from the
      end of the tile. */
  method CloseHoles(ppart: array2<Particle>, ihole: array2<Hole>, k: nat, nh: nat, ih: nat, npp: nat,
                    ghost hs: seq<Hole>, ghost all: multiset<Particle>)
    returns (npp': nat)
    requires k < ppart.Length0 && k < ihole.Length0 && nh == |hs| < ihole.Length1 && StoresHoles(Row(ihole, k), hs)
    requires ih <= nh && npp <= ppart.Length1 && Ascending(hs, npp) && Live(Row(ppart, k), npp, Unfilled(hs, ih)) == all
    modifies ppart
    ensures npp' == npp - (nh - ih) && Live(Row(ppart, k), npp', {}) == all
    ensures forall r, c | 0 <= r < ppart.Length0 && 0 <= c < ppart.Length1 && r != k :: ppart[r, c] == old(ppart[r, c])
  {
    hide Live, StoresHoles, Ascending;
    RoomForAll(hs, npp);
    var ip := nh - ih;
    for j := 0 to ip
      invariant Live(Row(ppart, k), npp - j, Open(hs, ih, nh - j)) == all
      invariant forall r, c | 0 <= r < ppart.Length0 && 0 <= c < ppart.Length1 && r != k ::
          ppart[r, c] == old(ppart[r, c])
    {
      ghost var row := Row(ppart, k);
      HoleAt(Row(ihole, k), hs, nh - j - 1);
      var j1, j2 := npp - j - 1, ihole[k, nh - j].at - 1;
      BottomAboveHole(hs, npp, nh - j - 1);
      OpenLast(hs, npp, ih, nh - j);
      LiveMove(row, npp - j, Open(hs, ih, nh - j), j2);
      if j1 > j2 {
        ppart[k, j2] := ppart[k, j1];
      }
      assert Row(ppart, k) == if j1 > j2 then row[j2 := row[j1]] else row;
    }
    npp' := npp - ip;
    assert Open(hs, ih, nh - ip) == {};
  }

  lemma RoomForAll(hs: seq<Hole>, n: nat)
    requires Ascending(hs, n)
    ensures |hs| <= n
  {
    if |hs| > 0 { AscendingBound(hs, n, 0); }
  }

  lemma BottomAboveHole(hs: seq<Hole>, n: nat, i: nat)
    requires Ascending(hs, n) && i < |hs|
    ensures 0 <= hs[i].at - 1 < n - (|hs| - 1 - i)
  {
    AscendingBound(hs, n, i);
  }

  /** What the neighbours of tile k send to it, by direction. */
  ghost predicate AllSend(g: Grid, k: nat, buffs: seq<seq<Particle>>, counts: seq<seq<int>>, outs: seq<seq<Particle>>)
    requires g.mx1 >= 1
  {
    && |outs| == 8
    && forall d: nat | d < 8 ::
         0 <= Source(g, k, d) < |buffs| && Source(g, k, d) < |counts| && |counts[Source(g, k, d)]| == 8
         && Sends(buffs[Source(g, k, d)], counts[Source(g, k, d)], d, outs[d])
  }

  /** The array ks of the source. */
  method Neighbours(g: Grid, k: nat) returns (ks: seq<int>)
    requires g.mx1 >= 1
    ensures |ks| == 8 && forall d | 0 <= d < 8 :: ks[d] == Source(g, k, d)
  {
    var ky := k / g.mx1;
    var kk := ky * g.mx1;
    var kl := ky - 1;
    if kl < 0 { kl := kl + g.my1; }
    kl := kl * g.mx1;
    var kr := ky + 1;
    if kr >= g.my1 { kr := kr - g.my1; }
    kr := kr * g.mx1;
    var kx := k - ky * g.mx1;
    var kxl := kx - 1;
    if kxl < 0 { kxl := kxl + g.mx1; }
    var kxr := kx + 1;
    if kxr >= g.mx1 { kxr := kxr - g.mx1; }
    ks := [kxr + kk, kxl + kk, kx + kr, kxr + kr, kxl + kr, kx + kl, kxr + kl, kxl + kl];
  }

  /** The loop over directions. */
  method TakeDirections(g: Grid, ppart: array2<Particle>, ppbuff: array2<Particle>, ncl: array2<int>,
                        ihole: array2<Hole>, k: nat, nh: nat,
                ghost n0: nat, ghost hs: seq<Hole>, ghost outs: seq<seq<Particle>>, start: nat,
                ghost stay: multiset<Particle>)
    returns (ih: nat, npp: nat, ist: int, j1: nat)
    requires g.mx1 >= 1 && k < ppart.Length0 && k < ihole.Length0 && nh == |hs| < ihole.Length1
             && StoresHoles(Row(ihole, k), hs)
    requires ncl.Length1 == 8 && ppart != ppbuff && start == n0 <= ppart.Length1 && Ascending(hs, n0)
    requires |outs| == 8 && AllSend(g, k, Rows(ppbuff), Rows(ncl), outs)
    requires TakenIn(Row(ppart, k), n0, hs, 0, n0, stay, multiset{})
    modifies ppart
    ensures ih == |Received(outs, 8)| && npp == Reach(n0, nh, ih)
    ensures TakenIn(Row(ppart, k), n0, hs, ih, npp, stay, multiset(Received(outs, 8)))
    ensures ist == (if npp > ppart.Length1 then 1 else 0) && (ih > nh ==> j1 == npp - 1)
    ensures forall r, c | 0 <= r < ppart.Length0 && 0 <= c < ppart.Length1 && r != k :: ppart[r, c] == old(ppart[r, c])
  {
    hide StoresHoles, Ascending, Source, TakenIn, AllSend, Sends;
    var ks := Neighbours(g, k);
    ih, npp, ist, j1 := 0, start, 0, 0;
    assert multiset(Received(outs, 0)) == multiset{};
    for ii := 0 to 8
      invariant ih == |Received(outs, ii)| && npp == Reach(n0, nh, ih)
      invariant TakenIn(Row(ppart, k), n0, hs, ih, npp, stay, multiset(Received(outs, ii)))
      invariant ist == if npp > ppart.Length1 then 1 else 0
      invariant ih > nh ==> j1 == npp - 1
      invariant forall r, c | 0 <= r < ppart.Length0 && 0 <= c < ppart.Length1 && r != k ::
          ppart[r, c] == old(ppart[r, c])
    {
      Sender(g, k, Rows(ppbuff), Rows(ncl), outs, ii);
      ReceivedNext(outs, ii);
      var full;
      ih, npp, full, j1 := TakeDirection(ppart, ppbuff, ncl, ihole, k, ks[ii], ii, nh, ih, npp, j1, n0, hs, outs[ii],
                                         stay, multiset(Received(outs, ii)));
      if full > 0 { ist := 1; }
    }
  }

  lemma ReceivedNext(outs: seq<seq<Particle>>, d: nat)
    requires d < |outs|
    ensures |Received(outs, d + 1)| == |Received(outs, d)| + |outs[d]|
    ensures multiset(Received(outs, d + 1)) == multiset(Received(outs, d)) + multiset(outs[d])
  {
  }

  /** One tile of the third loop: its holes take in what the neighbours have sent; what is left
      of either is settled at the end of the tile. */
  method TakeAll(g: Grid, ppart: array2<Particle>, kpic: array<int>, ppbuff: array2<Particle>, ncl: array2<int>,
                 ihole: array2<Hole>, k: nat, irc: int,
                 ghost hs: seq<Hole>, ghost outs: seq<seq<Particle>>)
    returns (irc': int)
    requires g.mx1 >= 1 && k < ppart.Length0 && k < kpic.Length && k < ihole.Length0 && |hs| < ihole.Length1
             && StoresHoles(Row(ihole, k), hs)
    requires ncl.Length1 == 8 && ppart != ppbuff && 0 <= kpic[k] <= ppart.Length1 && Ascending(hs, kpic[k])
    requires |outs| == 8 && AllSend(g, k, Rows(ppbuff), Rows(ncl), outs)
    modifies ppart, kpic
    ensures kpic[k] == old(kpic[k]) - |hs| + |Received(outs, 8)| && kpic[k] >= 0
    ensures irc' == if kpic[k] > ppart.Length1 then kpic[k] else irc
    ensures kpic[k] <= ppart.Length1 ==>
              multiset(Row(ppart, k)[..kpic[k]]) ==
              Live(old(Row(ppart, k)), old(kpic[k]), Unfilled(hs, 0)) + multiset(Received(outs, 8))
    ensures forall r, c | 0 <= r < ppart.Length0 && 0 <= c < ppart.Length1 && r != k :: ppart[r, c] == old(ppart[r, c])
    ensures forall r | 0 <= r < kpic.Length && r != k :: kpic[r] == old(kpic[r])
  {
    hide Live, StoresHoles, Source, TakenIn, Unfilled, AllSend, Received, Ascending;
    ghost var stay := Live(Row(ppart, k), kpic[k], Unfilled(hs, 0));
    var npp: nat := kpic[k];
    HolesCount(Row(ihole, k), hs);
    RoomForAll(hs, npp);
    var nh: nat := ihole[k, 0].at;
    NothingTaken(Row(ppart, k), npp, hs);
    var ih, ist, j1;
    ih, npp, ist, j1 := TakeDirections(g, ppart, ppbuff, ncl, ihole, k, nh, npp, hs, outs, npp, stay);
    irc' := irc;
    if ist > 0 {
      irc' := j1 + 1;
    }
    EndOfTaking(Row(ppart, k), kpic[k], hs, ih, npp, stay, multiset(Received(outs, 8)));
    if ih < nh {
      npp := CloseHoles(ppart, ihole, k, nh, ih, npp, hs, stay + multiset(Received(outs, 8)));
    }
    kpic[k] := npp;
    if npp <= ppart.Length1 { LiveAll(Row(ppart, k), npp); }
  }

  lemma HolesCount(row: seq<Hole>, hs: seq<Hole>)
    requires StoresHoles(row, hs) && |hs| < |row|
    ensures row[0].at == |hs|
  {
  }

  lemma NothingTaken(row: seq<Particle>, n0: nat, hs: seq<Hole>)
    requires n0 <= |row|
    ensures TakenIn(row, n0, hs, 0, n0, Live(row, n0, Unfilled(hs, 0)), multiset{})
  {
  }

  lemma Sender(g: Grid, k: nat, buffs: seq<seq<Particle>>, counts: seq<seq<int>>, outs: seq<seq<Particle>>, d: nat)
    requires g.mx1 >= 1 && AllSend(g, k, buffs, counts, outs) && d < 8
    ensures |outs| == 8 && 0 <= Source(g, k, d) < |buffs| && Source(g, k, d) < |counts|
    ensures Sends(buffs[Source(g, k, d)], counts[Source(g, k, d)], d, outs[d])
  {
  }

  lemma EndOfTaking(row: seq<Particle>, n0: nat, hs: seq<Hole>, ih: nat, npp: int, stay: multiset<Particle>,
                    taken: multiset<Particle>)
    requires TakenIn(row, n0, hs, ih, npp, stay, taken)
    ensures ih < |hs| ==> npp == n0
    ensures 0 <= npp <= |row| ==> Live(row, npp, Unfilled(hs, ih)) == stay + taken
    ensures ih >= |hs| ==> Unfilled(hs, ih) == {}
  {
  }
}
