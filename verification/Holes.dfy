/** The lists behind cpporder2l: which particles of a tile leave, in which direction, and what
    is left of the tile without them. */
module Holes {
  import opened Tiles

  /** An entry of ihole: the place of a departing particle, counted from 1, and its direction. */
  datatype Hole = Hole(at: int, dir: int)

  /** The entries for the first n particles, given the direction of each. */
  function Leaving(dirs: seq<int>, n: nat): seq<Hole>
    requires n <= |dirs|
  {
    if n == 0 then []
    else Leaving(dirs, n - 1) + if dirs[n - 1] > 0 then [Hole(n, dirs[n - 1])] else []
  }

  /** The places are in range and ascending, the directions are 1 to 8. */
  ghost predicate Ascending(hs: seq<Hole>, n: nat) {
    && (forall i | 0 <= i < |hs| :: 1 <= hs[i].at <= n && 1 <= hs[i].dir <= 8)
    && forall i, j | 0 <= i < j < |hs| :: hs[i].at < hs[j].at
  }

  lemma {:induction false} LeavingAscending(dirs: seq<int>, n: nat)
    requires n <= |dirs| && forall j | 0 <= j < |dirs| :: 0 <= dirs[j] <= 8
    ensures Ascending(Leaving(dirs, n), n) && |Leaving(dirs, n)| <= n
  {
    if n > 0 { LeavingAscending(dirs, n - 1); }
  }

  lemma AscendingPrefix(hs: seq<Hole>, n: nat, j: nat)
    requires Ascending(hs, n) && j <= |hs|
    ensures Ascending(hs[..j], n)
  {
  }

  // ------------------------------------------------ counts and offsets

  function CountDir(hs: seq<Hole>, dir: int): nat {
    if hs == [] then 0 else CountDir(hs[..|hs| - 1], dir) + if hs[|hs| - 1].dir == dir then 1 else 0
  }

  lemma CountSnoc(hs: seq<Hole>, h: Hole, dir: int)
    ensures CountDir(hs + [h], dir) == CountDir(hs, dir) + if h.dir == dir then 1 else 0
  {
    assert (hs + [h])[..|hs|] == hs;
  }

  lemma {:induction false} CountGrows(hs: seq<Hole>, j: nat, dir: int)
    requires j <= |hs|
    ensures CountDir(hs[..j], dir) <= CountDir(hs, dir)
    decreases |hs|
  {
    if j < |hs| {
      CountGrows(hs[..|hs| - 1], j, dir);
      assert hs[..|hs| - 1][..j] == hs[..j];
    } else {
      assert hs[..j] == hs;
    }
  }

  /** The number of entries with directions 1 to d: the result of the prefix scan. */
  function Off(hs: seq<Hole>, d: nat): nat {
    if d == 0 then 0 else Off(hs, d - 1) + CountDir(hs, d)
  }

  lemma {:induction false} OffSnoc(hs: seq<Hole>, h: Hole, d: nat)
    requires h.dir >= 1
    ensures Off(hs + [h], d) == Off(hs, d) + if h.dir <= d then 1 else 0
  {
    if d > 0 {
      OffSnoc(hs, h, d - 1);
      CountSnoc(hs, h, d);
    }
  }

  lemma {:induction false} OffOfNone(d: nat)
    ensures Off([], d) == 0
  {
    if d > 0 { OffOfNone(d - 1); }
  }

  lemma {:induction false} OffAll(hs: seq<Hole>)
    requires forall i | 0 <= i < |hs| :: 1 <= hs[i].dir <= 8
    ensures Off(hs, 8) == |hs|
  {
    if hs == [] {
      OffOfNone(8);
    } else {
      var front, h := hs[..|hs| - 1], hs[|hs| - 1];
      OffAll(front);
      OffSnoc(front, h, 8);
      assert hs == front + [h];
    }
  }

  lemma {:induction false} OffMonotone(hs: seq<Hole>, d: nat, e: nat)
    requires d <= e
    ensures Off(hs, d) <= Off(hs, e)
  {
    if d < e { OffMonotone(hs, d, e - 1); }
  }

  // ------------------------------------------------ the departing particles

  /** The particles that leave s in direction dir, in the order of the entries. */
  function Out(s: seq<Particle>, hs: seq<Hole>, dir: int): (out: seq<Particle>)
    requires forall i | 0 <= i < |hs| :: 1 <= hs[i].at <= |s|
    ensures |out| == CountDir(hs, dir)
  {
    if hs == [] then []
    else
      var front, h := hs[..|hs| - 1], hs[|hs| - 1];
      Out(s, front, dir) + if h.dir == dir then [s[h.at - 1]] else []
  }

  lemma OutSnoc(s: seq<Particle>, hs: seq<Hole>, h: Hole, dir: int)
    requires forall i | 0 <= i < |hs| :: 1 <= hs[i].at <= |s|
    requires 1 <= h.at <= |s|
    ensures Out(s, hs + [h], dir) == Out(s, hs, dir) + if h.dir == dir then [s[h.at - 1]] else []
  {
    assert (hs + [h])[..|hs|] == hs;
  }

  /** All particles that leave in directions 1 to d. */
  function OutSum(s: seq<Particle>, hs: seq<Hole>, d: nat): multiset<Particle>
    requires forall i | 0 <= i < |hs| :: 1 <= hs[i].at <= |s|
  {
    if d == 0 then multiset{} else OutSum(s, hs, d - 1) + multiset(Out(s, hs, d))
  }

  lemma Regroup<T>(a: multiset<T>, b: multiset<T>, x: T)
    ensures (a + b) + multiset{x} == a + (b + multiset{x}) == (a + multiset{x}) + b
  {
  }

  lemma MultisetSnoc<T>(s: seq<T>, x: T)
    ensures multiset(s + [x]) == multiset(s) + multiset{x}
  {
  }

  lemma OutBagSnoc(s: seq<Particle>, hs: seq<Hole>, h: Hole, dir: int)
    requires forall i | 0 <= i < |hs| :: 1 <= hs[i].at <= |s|
    requires 1 <= h.at <= |s|
    ensures multiset(Out(s, hs + [h], dir)) == multiset(Out(s, hs, dir)) + if h.dir == dir then multiset{s[h.at - 1]}
            else multiset{}
  {
    hide Out;
    OutSnoc(s, hs, h, dir);
    if h.dir != dir { assert Out(s, hs + [h], dir) == Out(s, hs, dir); }
  }

  lemma AddBags<T>(a: multiset<T>, b: multiset<T>, x: multiset<T>, y: multiset<T>)
    ensures (a + x) + (b + y) == (a + b) + (x + y)
  {
  }

  lemma {:induction false} OutSumSnoc(s: seq<Particle>, hs: seq<Hole>, h: Hole, d: nat)
    requires forall i | 0 <= i < |hs| :: 1 <= hs[i].at <= |s|
    requires 1 <= h.at <= |s| && h.dir >= 1
    ensures OutSum(s, hs + [h], d) == OutSum(s, hs, d) + if h.dir <= d then multiset{s[h.at - 1]} else multiset{}
  {
    hide Out, OutSum;
    if d == 0 {
      OutSumNext(s, hs, 0);
      OutSumNext(s, hs + [h], 0);
    } else {
      OutSumNext(s, hs, d);
      OutSumNext(s, hs + [h], d);
      OutSumSnoc(s, hs, h, d - 1);
      OutBagSnoc(s, hs, h, d);
      var p, before, here := multiset{s[h.at - 1]}, OutSum(s, hs, d - 1), multiset(Out(s, hs, d));
      AddBags(before, here, if h.dir < d then p else multiset{}, if h.dir == d then p else multiset{});
    }
  }

  lemma OutSumNext(s: seq<Particle>, hs: seq<Hole>, d: nat)
    requires forall i | 0 <= i < |hs| :: 1 <= hs[i].at <= |s|
    ensures OutSum(s, hs, d) == if d == 0 then multiset{} else OutSum(s, hs, d - 1) + multiset(Out(s, hs, d))
  {
  }

  lemma {:induction false} OutSumNone(s: seq<Particle>, d: nat)
    ensures OutSum(s, [], d) == multiset{}
  {
    if d > 0 { OutSumNone(s, d - 1); }
  }

  lemma {:induction false} OutMembers(s: seq<Particle>, hs: seq<Hole>, dir: int, p: Particle)
    requires forall i | 0 <= i < |hs| :: 1 <= hs[i].at <= |s|
    requires p in Out(s, hs, dir)
    ensures exists i :: 0 <= i < |hs| && hs[i].dir == dir && s[hs[i].at - 1] == p
  {
    var front, h := hs[..|hs| - 1], hs[|hs| - 1];
    if p in Out(s, front, dir) {
      OutMembers(s, front, dir, p);
      var i :| 0 <= i < |front| && front[i].dir == dir && s[front[i].at - 1] == p;
      assert hs[i] == front[i];
    }
  }

  // ------------------------------------------------ a tile with holes

  /** The elements below n that are not in a hole. */
  function Live(s: seq<Particle>, n: nat, holes: set<int>): multiset<Particle>
    requires n <= |s|
  {
    if n == 0 then multiset{}
    else Live(s, n - 1, holes) + if n - 1 in holes then multiset{} else multiset{s[n - 1]}
  }

  /** The places of the entries from number lo up to hi. */
  function Open(hs: seq<Hole>, lo: int, hi: int): set<int> {
    set i | 0 <= lo <= i < hi <= |hs| :: hs[i].at - 1
  }

  /** The holes still open when the first ih are filled. */
  function Unfilled(hs: seq<Hole>, ih: int): set<int> { Open(hs, ih, |hs|) }

  /** Only the elements that are not in a hole matter, and only the holes below n. */
  lemma {:induction false} LiveSame(s: seq<Particle>, s': seq<Particle>, n: nat, holes: set<int>, holes': set<int>)
    requires n <= |s| && n <= |s'|
    requires forall i | 0 <= i < n :: i in holes <==> i in holes'
    requires forall i | 0 <= i < n && i !in holes :: s[i] == s'[i]
    ensures Live(s, n, holes) == Live(s', n, holes')
  {
    if n > 0 { LiveSame(s, s', n - 1, holes, holes'); }
  }

  /** Filling a hole adds the particle. */
  lemma {:induction false} LiveFill(s: seq<Particle>, n: nat, holes: set<int>, h: int, p: Particle)
    requires n <= |s| && h in holes && 0 <= h < n
    ensures Live(s[h := p], n, holes - {h}) == Live(s, n, holes) + multiset{p}
  {
    hide Live;
    LiveNext(s, n, holes);
    LiveNext(s[h := p], n, holes - {h});
    if h == n - 1 {
      LiveSame(s[h := p], s, n - 1, holes - {h}, holes);
    } else {
      LiveFill(s, n - 1, holes, h, p);
    }
  }

  /** Moving the last element into a hole below it changes nothing; so does dropping a hole at
      the end. */
  lemma LiveMove(s: seq<Particle>, n: nat, holes: set<int>, h: int)
    requires 0 < n <= |s| && h in holes && 0 <= h < n && forall x | x in holes :: x <= h
    ensures Live(if n - 1 > h then s[h := s[n - 1]] else s, n - 1, holes - {h}) == Live(s, n, holes)
  {
    hide Live;
    LiveNext(s, n, holes);
    if n - 1 > h {
      LiveFill(s, n - 1, holes, h, s[n - 1]);
    } else {
      LiveSame(s, s, n - 1, holes - {h}, holes);
    }
  }

  lemma TakeBag<T>(s: seq<T>, n: nat)
    requires 0 < n <= |s|
    ensures multiset(s[..n]) == multiset(s[..n - 1]) + multiset{s[n - 1]}
  {
    assert s[..n] == s[..n - 1] + [s[n - 1]];
  }

  lemma {:induction false} LiveAll(s: seq<Particle>, n: nat)
    requires n <= |s|
    ensures Live(s, n, {}) == multiset(s[..n])
  {
    if n > 0 {
      LiveAll(s, n - 1);
      TakeBag(s, n);
    }
  }

  lemma {:induction false} LiveMembers(s: seq<Particle>, n: nat, holes: set<int>, p: Particle)
    requires n <= |s| && p in Live(s, n, holes)
    ensures exists i :: 0 <= i < n && i !in holes && s[i] == p
  {
    if p in Live(s, n - 1, holes) { LiveMembers(s, n - 1, holes, p); }
  }

  /** Those that stay and those that leave are all particles of the tile. */
  lemma {:induction false} StayAndLeave(s: seq<Particle>, hs: seq<Hole>, n: nat)
    requires n <= |s| && Ascending(hs, n)
    ensures multiset(s[..n]) == Live(s, n, Unfilled(hs, 0)) + OutSum(s, hs, 8)
    decreases |hs|
  {
    hide OutSum, Open, Live;
    if hs == [] {
      OutSumNone(s, 8);
      NothingOpen(hs);
      LiveAll(s, n);
    } else {
      var front, h := hs[..|hs| - 1], hs[|hs| - 1];
      assert hs == front + [h];
      AscendingPrefix(hs, n, |hs| - 1);
      StayAndLeave(s, front, n);
      OutSumSnoc(s, front, h, 8);
      OpenLast(hs, n, 0, |hs|);
      OpenPrefix(hs);
      var p := s[h.at - 1];
      LiveFill(s, n, Unfilled(hs, 0), h.at - 1, p);
      assert s[h.at - 1 := p] == s;
      Regroup(Live(s, n, Unfilled(hs, 0)), OutSum(s, front, 8), p);
    }
  }

  lemma NothingOpen(hs: seq<Hole>)
    requires hs == []
    ensures Unfilled(hs, 0) == {}
  {
  }

  lemma OpenPrefix(hs: seq<Hole>)
    requires hs != []
    ensures Open(hs, 0, |hs| - 1) == Unfilled(hs[..|hs| - 1], 0)
  {
    var front := hs[..|hs| - 1];
    forall x | x in Open(hs, 0, |hs| - 1) ensures x in Unfilled(front, 0) {
      var i :| 0 <= i < |hs| - 1 && hs[i].at - 1 == x;
      assert front[i].at - 1 == x;
    }
    forall x | x in Unfilled(front, 0) ensures x in Open(hs, 0, |hs| - 1) {
      var i :| 0 <= i < |front| && front[i].at - 1 == x;
      assert hs[i].at - 1 == x;
    }
  }

  /** The entries are exactly the particles with a direction. */
  lemma {:induction false} LeavingHave(dirs: seq<int>, n: nat, h: Hole)
    requires n <= |dirs| && h in Leaving(dirs, n)
    ensures 1 <= h.at <= n && dirs[h.at - 1] == h.dir
  {
    if h in Leaving(dirs, n - 1) { LeavingHave(dirs, n - 1, h); }
  }

  lemma {:induction false} LeavingHasAll(dirs: seq<int>, n: nat, i: nat)
    requires i < n <= |dirs| && dirs[i] > 0
    ensures Hole(i + 1, dirs[i]) in Leaving(dirs, n)
  {
    if i == n - 1 {
      assert Leaving(dirs, n)[|Leaving(dirs, n)| - 1] == Hole(n, dirs[i]);
    } else {
      LeavingHasAll(dirs, n - 1, i);
    }
  }

  lemma EntryIsOpen(hs: seq<Hole>, h: Hole)
    requires h in hs
    ensures h.at - 1 in Unfilled(hs, 0)
  {
  }

  lemma LiveNext(s: seq<Particle>, n: nat, holes: set<int>)
    requires 0 < n <= |s|
    ensures Live(s, n, holes) == Live(s, n - 1, holes) + if n - 1 in holes then multiset{} else multiset{s[n - 1]}
  {
  }

  /** Filling hole number ih takes its place out of the open ones. */
  lemma UnfilledNext(hs: seq<Hole>, n: nat, ih: nat)
    requires Ascending(hs, n) && ih < |hs|
    ensures hs[ih].at - 1 in Unfilled(hs, ih)
    ensures Unfilled(hs, ih) - {hs[ih].at - 1} == Unfilled(hs, ih + 1)
  {
    forall x | x in Unfilled(hs, ih) && x != hs[ih].at - 1 ensures x in Unfilled(hs, ih + 1) {
      var i :| ih <= i < |hs| && hs[i].at - 1 == x;
      assert i != ih;
    }
  }

  /** Closing the last open hole. */
  lemma OpenLast(hs: seq<Hole>, n: nat, lo: nat, hi: nat)
    requires Ascending(hs, n) && lo < hi <= |hs|
    ensures hs[hi - 1].at - 1 in Open(hs, lo, hi)
    ensures forall x | x in Open(hs, lo, hi) :: x <= hs[hi - 1].at - 1
    ensures Open(hs, lo, hi) - {hs[hi - 1].at - 1} == Open(hs, lo, hi - 1)
  {
    forall x | x in Open(hs, lo, hi) && x != hs[hi - 1].at - 1 ensures x in Open(hs, lo, hi - 1) {
      var i :| lo <= i < hi && hs[i].at - 1 == x;
      assert i != hi - 1;
    }
  }

  /** Every entry leaves room for the later ones. */
  lemma {:induction false} AscendingBound(hs: seq<Hole>, n: nat, i: nat)
    requires Ascending(hs, n) && i < |hs|
    ensures hs[i].at <= n - (|hs| - 1 - i)
    decreases |hs| - i
  {
    if i < |hs| - 1 { AscendingBound(hs, n, i + 1); }
  }
}
