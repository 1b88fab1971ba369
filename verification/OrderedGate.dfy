/** The `ordered` gate of a dispatched loop from 0 with stride 1, under the static schedule or the
    dynamic schedule with chunk 1; every iteration passes through the gate once. */
module OrderedGate {
  import opened LoopSchedule
  import opened LoopDispatch
  import opened Blocks

  /** A thread: before its call of kmp_next; at the gate or inside, with its current iteration, the
      end of the iterations it holds, and its entries of first_iter and last_iter; or finished. */
  datatype Thread =
    | Idle
    | AtGate(i: int, end: int, first: int, last: int)
    | Inside(i: int, end: int, first: int, last: int)
    | Finished

  /** finished is the sequence of iterations whose ordered region is over, in order of time. */
  datatype State = State(threads: seq<Thread>, ordered: int, tickets: int, finished: seq<int>)

  datatype Loop = Loop(trip: int, size: int, schedule: Schedule) {
    predicate Valid() { trip >= 1 && size >= 1 && !schedule.StaticChunkedSchedule? }

    function Chunk(): int requires Valid() { Share(trip, size) }
  }

  function Begin(l: Loop): State
    requires l.Valid()
  {
    State(seq(l.size, _ => Idle), 0, 0, [])
  }

  /** A thread with the iterations from first up to end. */
  function WithRange(first: int, end: int, last: int): Thread {
    if first < end then AtGate(first, end, first, last) else Finished
  }

  /** What kmp_next gives thread g: under the static schedule its share, under the dynamic one the
      next ticket, whose window ends one after the iteration. */
  function Given(l: Loop, s: State, g: int): Thread
    requires l.Valid()
  {
    if l.schedule.StaticSchedule? then
      var first := g * l.Chunk();
      var upper := if first + l.Chunk() - 1 > l.trip - 1 then l.trip - 1 else first + l.Chunk() - 1;
      WithRange(first, upper + 1, upper)
    else
      WithRange(s.tickets, if s.tickets < l.trip then s.tickets + 1 else s.tickets, s.tickets + 1)
  }

  datatype Act = Take | Enter | Exit

  predicate Can(l: Loop, s: State, g: int, act: Act) {
    && 0 <= g < |s.threads|
    && match act
       case Take => s.threads[g].Idle?
       case Enter => s.threads[g].AtGate? && s.threads[g].first <= s.ordered <= s.threads[g].last
       case Exit => s.threads[g].Inside?
  }

  function Do(l: Loop, s: State, g: int, act: Act): State
    requires l.Valid() && Can(l, s, g, act)
  {
    var t := s.threads[g];
    match act
    case Take => s.(threads := s.threads[g := Given(l, s, g)], tickets := s.tickets + 1)
    case Enter => s.(threads := s.threads[g := Inside(t.i, t.end, t.first, t.last)])
    case Exit =>
      var next := if t.i + 1 < t.end then AtGate(t.i + 1, t.end, t.first, t.last)
                  else if l.schedule.DynamicSchedule? then Idle else Finished;
      s.(threads := s.threads[g := next], ordered := s.ordered + 1, finished := s.finished + [t.i])
  }

  ghost predicate Reaches(l: Loop, s: State, run: seq<(int, Act)>, s': State)
    requires l.Valid()
    decreases |run|
  {
    if run == [] then s == s'
    else Can(l, s, run[0].0, run[0].1) && Reaches(l, Do(l, s, run[0].0, run[0].1), run[1..], s')
  }

  // ------------------------------------------------ the invariant

  /** Iteration k is held by thread t. */
  predicate Holds(t: Thread, k: int) { (t.AtGate? || t.Inside?) && t.i <= k < t.end }

  predicate ThreadFits(l: Loop, s: State, g: int, t: Thread)
    requires l.Valid()
  {
    (t.AtGate? || t.Inside?) ==>
      && s.ordered <= t.i < t.end <= l.trip
      && t.first <= t.i && t.end <= t.last + 1 && (t.i > t.first ==> t.i <= s.ordered)
      && (t.Inside? ==> t.i == s.ordered)
      && (if l.schedule.StaticSchedule? then g * l.Chunk() <= t.i && t.end <= g * l.Chunk() + l.Chunk()
          else t.end <= s.tickets)
  }

  ghost predicate Disjoint(s: State) {
    forall g, h, k | 0 <= g < |s.threads| && 0 <= h < |s.threads| && Holds(s.threads[g], k) && Holds(s.threads[h], k) ::
      g == h
  }

  /** Who is responsible for iteration k, or will be. */
  ghost predicate Covered(l: Loop, s: State, k: int)
    requires l.Valid()
  {
    (exists g :: 0 <= g < |s.threads| && Holds(s.threads[g], k))
    || (if l.schedule.StaticSchedule? then exists g ::
        0 <= g < |s.threads| && s.threads[g].Idle? && k / l.Chunk() == g else k >= s.tickets)
  }

  ghost predicate Inv(l: Loop, s: State)
    requires l.Valid()
  {
    && |s.threads| == l.size && 0 <= s.ordered <= l.trip && 0 <= s.tickets
    && l.Chunk() >= 1
    && (forall g | 0 <= g < |s.threads| :: ThreadFits(l, s, g, s.threads[g]))
    && Disjoint(s)
    && (forall k | s.ordered <= k < l.trip :: Covered(l, s, k))
    && s.finished == Upto(s.ordered)
    && (l.schedule.DynamicSchedule? ==> forall g | 0 <= g < |s.threads| && s.threads[g].Finished? ::
            s.tickets >= l.trip)
  }

  function Upto(n: int): (u: seq<int>)
    ensures n >= 0 ==> |u| == n && forall i | 0 <= i < n :: u[i] == i
  {
    if n <= 0 then [] else Upto(n - 1) + [n - 1]
  }

  lemma BeginInv(l: Loop)
    requires l.Valid()
    ensures Inv(l, Begin(l))
  {
    var s := Begin(l);
    ShareBounds(l.trip, l.size);
    forall k | 0 <= k < l.trip ensures Covered(l, s, k) {
      ShareCovers(l.trip, l.size, k);
      assert s.threads[k / l.Chunk()].Idle?;
    }
  }

  /** The range given to thread g under the static schedule is its share of the loop. */
  lemma ShareOf(l: Loop, g: int, k: int)
    requires l.Valid() && 0 <= g && 0 <= k < l.trip
    ensures l.Chunk() >= 1
    ensures g * l.Chunk() <= k < g * l.Chunk() + l.Chunk() <==> k / l.Chunk() == g
  {
    ShareBounds(l.trip, l.size);
    QuotientIs(k, l.Chunk(), g);
  }

  /** What kmp_next gives is in range and nobody else's. */
  lemma GivenFits(l: Loop, s: State, g: int)
    requires l.Valid() && Inv(l, s) && 0 <= g < |s.threads| && s.threads[g].Idle?
    requires forall k | Holds(Given(l, s, g), k) :: k >= s.ordered
    ensures ThreadFits(l, s.(tickets := s.tickets + 1), g, Given(l, s, g))
  {
    hide Share;
    var t := Given(l, s, g);
    if t.AtGate? { assert Holds(t, t.i); }
  }

  /** Iterations given to a thread are not finished yet. */
  lemma GivenIsOpen(l: Loop, s: State, g: int, k: int)
    requires l.Valid() && Inv(l, s) && 0 <= g < |s.threads| && s.threads[g].Idle? && Holds(Given(l, s, g), k)
    requires Fresh(l, s)
    ensures k >= s.ordered && forall h | 0 <= h < |s.threads| :: !Holds(s.threads[h], k)
  {
    hide Share;
    if l.schedule.StaticSchedule? {
      if 0 <= k { ShareOf(l, g, k); }
      if g > 0 { MulCompare(0, g, l.Chunk()); }
      forall h | 0 <= h < |s.threads| ensures !Holds(s.threads[h], k) {
        if Holds(s.threads[h], k) { ShareOf(l, h, k); }
      }
    }
  }

  /** The share of an idle thread is untouched, and so are the tickets not yet drawn. */
  ghost predicate Fresh(l: Loop, s: State)
    requires l.Valid()
  {
    if l.schedule.StaticSchedule? then
      forall g, k | 0 <= g < |s.threads| && s.threads[g].Idle? && Holds(Given(l, s, g), k) :: k >= s.ordered
    else s.ordered <= s.tickets
  }

  lemma TakeKeepsFresh(l: Loop, s: State, g: int)
    requires l.Valid() && Fresh(l, s) && Can(l, s, g, Take)
    ensures Fresh(l, Do(l, s, g, Take))
  {
    hide Share;
    var s' := Do(l, s, g, Take);
    if l.schedule.StaticSchedule? {
      forall h, k | 0 <= h < |s'.threads| && s'.threads[h].Idle? && Holds(Given(l, s', h), k) ensures k >= s'.ordered {
        assert s.threads[h].Idle? || h == g;
        assert Given(l, s', h) == Given(l, s, h);
      }
    }
  }

  lemma TakeKeepsFits(l: Loop, s: State, g: int, h: int)
    requires l.Valid() && Inv(l, s) && Fresh(l, s) && Can(l, s, g, Take) && 0 <= h < |s.threads|
    ensures ThreadFits(l, Do(l, s, g, Take), h, Do(l, s, g, Take).threads[h])
  {
    hide Share;
    if h == g {
      forall k | Holds(Given(l, s, g), k) ensures k >= s.ordered {
        GivenIsOpen(l, s, g, k);
      }
      GivenFits(l, s, g);
    } else {
      assert ThreadFits(l, s, h, s.threads[h]);
    }
  }

  lemma TakeKeepsDisjoint(l: Loop, s: State, g: int)
    requires l.Valid() && Inv(l, s) && Fresh(l, s) && Can(l, s, g, Take)
    ensures Disjoint(Do(l, s, g, Take))
  {
    hide Given;
    var s' := Do(l, s, g, Take);
    forall h, i, k | 0 <= h < |s'.threads| && 0 <= i < |s'.threads| && Holds(s'.threads[h], k)
                     && Holds(s'.threads[i], k) ensures h == i {
      if h == g || i == g { GivenIsOpen(l, s, g, k); }
      assert h != g ==> s'.threads[h] == s.threads[h];
      assert i != g ==> s'.threads[i] == s.threads[i];
    }
  }

  lemma TakeKeepsInv(l: Loop, s: State, g: int)
    requires l.Valid() && Inv(l, s) && Fresh(l, s) && Can(l, s, g, Take)
    ensures Inv(l, Do(l, s, g, Take)) && Fresh(l, Do(l, s, g, Take))
  {
    hide Share, ThreadFits, Disjoint, Covered, Fresh;
    var s' := Do(l, s, g, Take);
    TakeKeepsFresh(l, s, g);
    TakeKeepsDisjoint(l, s, g);
    forall h | 0 <= h < |s'.threads| ensures ThreadFits(l, s', h, s'.threads[h]) {
      TakeKeepsFits(l, s, g, h);
    }
    forall k | s'.ordered <= k < l.trip ensures Covered(l, s', k) {
      TakeCovers(l, s, g, k);
    }
  }

  lemma TakeCovers(l: Loop, s: State, g: int, k: int)
    requires l.Valid() && l.Chunk() >= 1 && |s.threads| == l.size && Can(l, s, g, Take) && 0 <= k < l.trip
             && Covered(l, s, k) && s.tickets >= 0
    ensures Covered(l, Do(l, s, g, Take), k)
  {
    hide Share;
    var s' := Do(l, s, g, Take);
    if h :| 0 <= h < |s.threads| && Holds(s.threads[h], k) {
      assert s'.threads[h] == s.threads[h];
    } else if l.schedule.StaticSchedule? {
      var h :| 0 <= h < |s.threads| && s.threads[h].Idle? && k / l.Chunk() == h;
      if h == g {
        ShareOf(l, g, k);
        assert Holds(s'.threads[g], k);
      } else {
        assert s'.threads[h].Idle?;
      }
    } else if k == s.tickets {
      assert Holds(s'.threads[g], k);
    }
  }

  lemma EnterKeepsInv(l: Loop, s: State, g: int)
    requires l.Valid() && Inv(l, s) && Fresh(l, s) && Can(l, s, g, Enter)
    ensures Inv(l, Do(l, s, g, Enter)) && Fresh(l, Do(l, s, g, Enter))
  {
    hide Share, Fresh, Covered, Disjoint;
    var s' := Do(l, s, g, Enter);
    forall h | 0 <= h < |s'.threads| ensures ThreadFits(l, s', h, s'.threads[h]) {
      assert ThreadFits(l, s, h, s.threads[h]);
    }
    SameHoldings(l, s, s', g);
  }

  /** Passing the gate changes nothing about who holds what. */
  lemma SameHoldings(l: Loop, s: State, s': State, g: int)
    requires l.Valid() && Can(l, s, g, Enter) && s' == Do(l, s, g, Enter) && l.Chunk() >= 1
    ensures Fresh(l, s) ==> Fresh(l, s')
    ensures Disjoint(s) ==> Disjoint(s')
    ensures forall k | Covered(l, s, k) :: Covered(l, s', k)
  {
    hide Share;
    assert forall h, k | 0 <= h < |s.threads| :: Holds(s.threads[h], k) <==> Holds(s'.threads[h], k);
    assert forall h | 0 <= h < |s.threads| :: s.threads[h].Idle? <==> s'.threads[h].Idle?;
    assert forall h :: Given(l, s, h) == Given(l, s', h);
    forall k | Covered(l, s, k) ensures Covered(l, s', k) {
    }
  }

  lemma ExitKeepsFits(l: Loop, s: State, g: int, h: int)
    requires l.Valid() && Inv(l, s) && Can(l, s, g, Exit) && 0 <= h < |s.threads|
    ensures ThreadFits(l, Do(l, s, g, Exit), h, Do(l, s, g, Exit).threads[h])
  {
    hide Share, Covered;
    assert ThreadFits(l, s, h, s.threads[h]) && ThreadFits(l, s, g, s.threads[g]);
    if h != g && (s.threads[h].AtGate? || s.threads[h].Inside?) {
      assert Holds(s.threads[g], s.ordered);
      assert Holds(s.threads[h], s.threads[h].i);
    }
  }

  lemma ExitKeepsRest(l: Loop, s: State, g: int)
    requires l.Valid() && Inv(l, s) && Fresh(l, s) && Can(l, s, g, Exit)
    ensures Disjoint(Do(l, s, g, Exit)) && Fresh(l, Do(l, s, g, Exit))
    ensures forall k | s.ordered < k < l.trip :: Covered(l, Do(l, s, g, Exit), k)
  {
    hide Share;
    var s' := Do(l, s, g, Exit);
    assert ThreadFits(l, s, g, s.threads[g]);
    assert forall h, k | 0 <= h < |s.threads| && Holds(s'.threads[h], k) :: Holds(s.threads[h], k);
    assert forall h, k | 0 <= h < |s.threads| && Holds(s.threads[h], k) && k != s.ordered :: Holds(s'.threads[h], k);
    ExitKeepsFresh(l, s, g);
    forall k | s.ordered < k < l.trip ensures Covered(l, s', k) {
      assert Covered(l, s, k);
      if h :| 0 <= h < |s.threads| && Holds(s.threads[h], k) {
        assert Holds(s'.threads[h], k);
      } else if l.schedule.StaticSchedule? {
        var h :| 0 <= h < |s.threads| && s.threads[h].Idle? && k / l.Chunk() == h;
        assert s'.threads[h].Idle?;
      }
    }
  }

  lemma ExitKeepsFresh(l: Loop, s: State, g: int)
    requires l.Valid() && Inv(l, s) && Fresh(l, s) && Can(l, s, g, Exit)
    ensures Fresh(l, Do(l, s, g, Exit))
  {
    hide Share;
    var s' := Do(l, s, g, Exit);
    assert ThreadFits(l, s, g, s.threads[g]);
    assert Holds(s.threads[g], s.ordered);
    if l.schedule.StaticSchedule? {
      forall h, k | 0 <= h < |s'.threads| && s'.threads[h].Idle? && Holds(Given(l, s', h), k) ensures k >= s'.ordered {
        assert s.threads[h].Idle?;
        assert Given(l, s', h) == Given(l, s, h);
        GivenIsOpen(l, s, h, k);
      }
    }
  }

  lemma ExitKeepsInv(l: Loop, s: State, g: int)
    requires l.Valid() && Inv(l, s) && Fresh(l, s) && Can(l, s, g, Exit)
    ensures Inv(l, Do(l, s, g, Exit)) && Fresh(l, Do(l, s, g, Exit))
  {
    hide Share, Fresh, Covered, Disjoint;
    var s' := Do(l, s, g, Exit);
    assert ThreadFits(l, s, g, s.threads[g]);
    ExitKeepsRest(l, s, g);
    forall h | 0 <= h < |s'.threads| ensures ThreadFits(l, s', h, s'.threads[h]) {
      ExitKeepsFits(l, s, g, h);
    }
    assert s'.finished == Upto(s'.ordered);
  }

  lemma {:induction false} RunKeepsInv(l: Loop, s: State, run: seq<(int, Act)>, s': State)
    requires l.Valid() && Inv(l, s) && Fresh(l, s) && Reaches(l, s, run, s')
    ensures Inv(l, s') && Fresh(l, s')
    decreases |run|
  {
    hide Inv, Fresh, Can, Do;
    if run != [] {
      var g, act := run[0].0, run[0].1;
      match act {
        case Take => TakeKeepsInv(l, s, g);
        case Enter => EnterKeepsInv(l, s, g);
        case Exit => ExitKeepsInv(l, s, g);
      }
      RunKeepsInv(l, Do(l, s, g, act), run[1..], s');
    }
  }

  lemma NothingGivenYet(l: Loop)
    requires l.Valid()
    ensures Fresh(l, Begin(l))
  {
    hide Share;
    ShareBounds(l.trip, l.size);
    forall g, k | 0 <= g < l.size && Holds(Given(l, Begin(l), g), k) ensures k >= 0 {
      if g > 0 { MulCompare(0, g, l.Chunk()); }
    }
  }

  lemma ReachableInv(l: Loop, run: seq<(int, Act)>, s: State)
    requires l.Valid() && Reaches(l, Begin(l), run, s)
    ensures Inv(l, s) && Fresh(l, s)
  {
    hide Inv, Reaches;
    BeginInv(l);
    NothingGivenYet(l);
    RunKeepsInv(l, Begin(l), run, s);
  }

  // ------------------------------------------------ the guarantees

  /** In every interleaving at most one thread is inside, with the iteration whose turn it is; the
      regions are finished in iteration order, each once. */
  lemma OrderedRegionsFollowTheLoop(l: Loop, run: seq<(int, Act)>, s: State)
    requires l.Valid() && Reaches(l, Begin(l), run, s)
    ensures 0 <= s.ordered <= l.trip && s.finished == Upto(s.ordered)
    ensures forall g | 0 <= g < |s.threads| && s.threads[g].Inside? :: s.threads[g].i == s.ordered
    ensures forall g, h | 0 <= g < |s.threads| && 0 <= h < |s.threads| && s.threads[g].Inside?
                          && s.threads[h].Inside? :: g == h
  {
    hide Share, Covered, Fresh;
    ReachableInv(l, run, s);
    forall g | 0 <= g < |s.threads| && s.threads[g].Inside?
      ensures s.threads[g].i == s.ordered && Holds(s.threads[g], s.ordered) {
      assert ThreadFits(l, s, g, s.threads[g]);
    }
  }

  /** The gate lets a thread through exactly when it is the turn of its iteration, although the
      window it tests is wider. */
  lemma GateOpensInTurn(l: Loop, run: seq<(int, Act)>, s: State, g: int)
    requires l.Valid() && Reaches(l, Begin(l), run, s) && 0 <= g < |s.threads| && s.threads[g].AtGate?
    ensures Can(l, s, g, Enter) <==> s.threads[g].i == s.ordered
  {
    hide Share, Covered, Fresh;
    ReachableInv(l, run, s);
    assert ThreadFits(l, s, g, s.threads[g]);
  }

  /** No deadlock: until all regions are finished, the thread whose turn it is can go on, or has yet
      to ask for its iterations. */
  lemma SomebodyCanGoOn(l: Loop, run: seq<(int, Act)>, s: State) returns (g: int, act: Act)
    requires l.Valid() && Reaches(l, Begin(l), run, s) && s.ordered < l.trip
    ensures Can(l, s, g, act)
  {
    hide Share, Fresh, Disjoint;
    ReachableInv(l, run, s);
    assert Covered(l, s, s.ordered);
    if h :| 0 <= h < |s.threads| && Holds(s.threads[h], s.ordered) {
      assert ThreadFits(l, s, h, s.threads[h]);
      g, act := h, if s.threads[h].Inside? then Exit else Enter;
    } else if l.schedule.StaticSchedule? {
      var h :| 0 <= h < |s.threads| && s.threads[h].Idle? && s.ordered / l.Chunk() == h;
      g, act := h, Take;
    } else {
      NobodyAhead(l, s);
      g, act := 0, Take;
    }
  }

  lemma NobodyAhead(l: Loop, s: State)
    requires l.Valid() && Inv(l, s) && l.schedule.DynamicSchedule? && s.tickets <= s.ordered < l.trip
    ensures |s.threads| >= 1 && s.threads[0].Idle?
  {
    hide Share, Covered, Disjoint;
    assert ThreadFits(l, s, 0, s.threads[0]);
  }

  // ------------------------------------------------ kmp_next gives what the protocol says

  /** The loop_data of the runtime is that of the loop, as many calls have been made, the count of
      finished regions is the same, and the windows of the threads are those stored. */
  ghost predicate Describes(data: LoopData, l: Loop, s: State)
    reads data
  {
    && data.Valid() && l.Valid() && data.lower == 0 && data.stride == 1 && data.upper == l.trip - 1
    && data.numThreads == l.size == |s.threads| && data.schedule == l.schedule
    && (l.schedule.DynamicSchedule? ==> data.chunk == 1)
    && data.scheduleCount == s.tickets && data.orderedCount == s.ordered
    && forall g | 0 <= g < |s.threads| :: Stored(data, l, s, g)
  }

  ghost predicate Stored(data: LoopData, l: Loop, s: State, g: int)
    requires data.Valid() && data.numThreads == |s.threads| && 0 <= g < |s.threads|
    reads data
  {
    var t := s.threads[g];
    && (t.AtGate? || t.Inside? ==> t.first == data.firstIter[g] && t.last == data.lastIter[g])
    && (t.Idle? && l.schedule.StaticSchedule? ==> data.iterCount[g] <= 0)
  }

  /** A new loop_data is that of the protocol's first state. */
  method NewLoop(l: Loop) returns (data: LoopData)
    requires l.Valid()
    ensures fresh(data) && Describes(data, l, Begin(l))
  {
    data := new LoopData(l.size, 0, l.trip - 1, 1, 1, l.schedule);
  }

  /** A thread asks for iterations: its entries of first_iter and last_iter become its window. */
  method Ask(data: LoopData, l: Loop, gtid: nat, ghost s: State) returns (t: Thread)
    requires Describes(data, l, s) && gtid < l.size && s.threads[gtid].Idle?
    modifies data
    ensures t == Given(l, s, gtid)
    ensures Describes(data, l, Do(l, s, gtid, Take))
  {
    hide Share;
    assert Stored(data, l, s, gtid);
    var reply := data.KmpNext(gtid, false);
    t := if reply.more && reply.lower <= reply.upper
    then AtGate(reply.lower, reply.upper + 1, data.firstIter[gtid], data.lastIter[gtid])
    else Finished;
    if l.schedule.StaticSchedule? {
      assert Trip(0, l.trip - 1, 1) == l.trip;
      ShareBounds(l.trip, l.size);
      MulCompare(0, gtid, l.Chunk());
    }
    assert t == Given(l, s, gtid);
    forall g | 0 <= g < l.size ensures Stored(data, l, Do(l, s, gtid, Take), g) {
      assert old(Stored(data, l, s, g));
    }
  }

  /** __kmpc_ordered, one turn of its loop: the thread is let through exactly if the protocol allows
      the step. */
  method AskGate(data: LoopData, l: Loop, gtid: nat, ghost s: State) returns (through: bool)
    requires Describes(data, l, s) && gtid < l.size && s.threads[gtid].AtGate?
    ensures through <==> Can(l, s, gtid, Enter)
    ensures through ==> Describes(data, l, Do(l, s, gtid, Enter))
  {
    assert Stored(data, l, s, gtid);
    through := data.TryOrdered(gtid);
    if through {
      forall g | 0 <= g < l.size ensures Stored(data, l, Do(l, s, gtid, Enter), g) {
        assert Stored(data, l, s, g);
      }
    }
  }

  /** __kmpc_end_ordered, by the thread inside. */
  method LeaveGate(data: LoopData, l: Loop, gtid: nat, ghost s: State)
    requires Describes(data, l, s) && gtid < l.size && s.threads[gtid].Inside?
    modifies data
    ensures Describes(data, l, Do(l, s, gtid, Exit))
  {
    data.EndOrdered();
    forall g | 0 <= g < l.size ensures Stored(data, l, Do(l, s, gtid, Exit), g) {
      assert old(Stored(data, l, s, g));
    }
  }
}
