/** `single` with `copyprivate`: __kmpc_single picks one thread, __kmpc_copyprivate hands the
    variable of that thread to all.  The threads go through the constructs round after round and
    reuse one counter and one pointer. */
module Broadcast {

  /** Where a thread is in its current round. */
  datatype Phase =
    | Outside     // before __kmpc_single
    | Body        // after it: the winner runs the single region
    | Publishing  // in __kmpc_copyprivate, before the pointer is set
    | Entering    // before the first barrier
    | Copying     // after the first barrier, before cpy_func
    | Copied      // after cpy_func, before the second barrier

  function Rank(p: Phase): int {
    match p case Outside => 0 case Body => 1 case Publishing => 2 case Entering => 3 case Copying => 4 case Copied => 5
  }

  /** round is single_counter of the thread's task data, as long as the thread is outside; won is
      what __kmpc_single returned; value is the thread's own copy of the variable. */
  datatype Thread<V> = Thread(round: nat, phase: Phase, won: bool, value: V)

  /** How far a thread is. */
  function Position<V>(t: Thread<V>): int { 6 * t.round + Rank(t.phase) }

  /** counter is single_counter of the team, pointer the thread copyprivate_data points into (-1
      before its first use).  winners[r] and published[r] record who won round r and the value that
      thread had when it set the pointer. */
  datatype State<V> = State(threads: seq<Thread<V>>, counter: int, pointer: int, winners: seq<int>,
                            published: map<int, V>)

  function Begin<V>(values: seq<V>): State<V> {
    State(seq(|values|, t requires 0 <= t < |values| => Thread(0, Outside, false, values[t])), 0, -1, [], map[])
  }

  /** Change: the thread assigns to its own variable outside the constructs or in the single region. */
  datatype Act<V> = Change(v: V) | EnterSingle | EndBody | Publish | PassFirst | Copy | PassSecond

  /** A barrier lets a thread pass when every thread has come to it. */
  predicate AllAt<V>(s: State<V>, position: int) {
    forall t | 0 <= t < |s.threads| :: Position(s.threads[t]) >= position
  }

  predicate Can<V>(s: State<V>, t: int, act: Act<V>) {
    && 0 <= t < |s.threads|
    && var p := s.threads[t].phase;
    match act
    case Change(_) => p.Outside? || p.Body?
    case EnterSingle => p.Outside?
    case EndBody => p.Body?
    case Publish => p.Publishing?
    case PassFirst => p.Entering? && AllAt(s, Position(s.threads[t]))
    case Copy => p.Copying? && 0 <= s.pointer < |s.threads|
    case PassSecond => p.Copied? && AllAt(s, Position(s.threads[t]))
  }

  function Set<V>(s: State<V>, t: int, x: Thread<V>): State<V>
    requires 0 <= t < |s.threads|
  {
    s.(threads := s.threads[t := x])
  }

  function Do<V>(s: State<V>, t: int, act: Act<V>): State<V>
    requires Can(s, t, act)
  {
    var x := s.threads[t];
    match act
    case Change(v) => Set(s, t, x.(value := v))
    case EnterSingle =>
      // under single_mtx: the first thread of the round finds the counters equal
      if s.counter == x.round
      then Set(s, t, x.(phase := Body, won := true)).(counter := s.counter + 1, winners := s.winners + [t])
      else Set(s, t, x.(phase := Body, won := false))
    case EndBody => Set(s, t, x.(phase := Publishing))
    case Publish =>
      if x.won then Set(s, t, x.(phase := Entering)).(pointer := t, published := s.published[x.round := x.value])
      else Set(s, t, x.(phase := Entering))
    case PassFirst => Set(s, t, x.(phase := Copying))
    case Copy => Set(s, t, x.(phase := Copied, value := s.threads[s.pointer].value))
    case PassSecond => Set(s, t, x.(phase := Outside, round := x.round + 1))
  }

  ghost predicate Reaches<V>(s: State<V>, run: seq<(int, Act<V>)>, s': State<V>)
    decreases |run|
  {
    if run == [] then s == s' else Can(s, run[0].0, run[0].1) && Reaches(Do(s, run[0].0, run[0].1), run[1..], s')
  }

  // ------------------------------------------------ the invariant

  /** How many `single` constructs the thread has entered. */
  function Entered<V>(t: Thread<V>): int { if t.phase.Outside? then t.round else t.round + 1 }

  /** A thread never gets past a barrier that another one has not reached. */
  predicate Together<V>(s: State<V>) {
    forall t, u | 0 <= t < |s.threads| && 0 <= u < |s.threads| :: Reached(s.threads[t], s.threads[u])
  }

  /** Thread y has reached the barriers that thread x has passed. */
  predicate Reached<V>(x: Thread<V>, y: Thread<V>) {
    (Rank(x.phase) >= 4 ==> Position(y) >= 6 * x.round + 3) && Position(y) >= 6 * x.round - 1
  }

  ghost predicate Winners<V>(s: State<V>) {
    && |s.winners| == s.counter
    && (forall r | 0 <= r < |s.winners| :: WonBySomeone(s, r))
    && forall t | 0 <= t < |s.threads| :: KnowsWinner(s, t)
  }

  /** The winner of round r has entered it. */
  predicate WonBySomeone<V>(s: State<V>, r: int)
    requires 0 <= r < |s.winners|
  {
    0 <= s.winners[r] < |s.threads| && Entered(s.threads[s.winners[r]]) > r
  }

  /** A thread inside a round knows whether it has won it. */
  predicate KnowsWinner<V>(s: State<V>, t: int)
    requires 0 <= t < |s.threads| && |s.winners| == s.counter
  {
    && Entered(s.threads[t]) <= s.counter
    && (!s.threads[t].phase.Outside? ==> (s.threads[t].won <==> s.winners[s.threads[t].round] == t))
  }

  /** From publishing on, the winner's variable holds the published value, and the pointer stays as
      long as some thread has not copied; whoever has copied holds the published value. */
  ghost predicate Values<V>(s: State<V>) {
    && (forall t | 0 <= t < |s.threads| && Rank(s.threads[t].phase) >= 3 && s.threads[t].won :: HasValue(s, t))
    && (forall t | 0 <= t < |s.threads| && Rank(s.threads[t].phase) == 5 :: HasValue(s, t))
    && forall t, u | 0 <= t < |s.threads| && 0 <= u < |s.threads| && Rank(s.threads[t].phase) >= 3
                     && s.threads[t].won ::
         Position(s.threads[u]) < 6 * s.threads[t].round + 5 ==> s.pointer == t
  }

  /** The thread's variable holds what was published in its round. */
  ghost predicate HasValue<V>(s: State<V>, t: int)
    requires 0 <= t < |s.threads|
  {
    s.threads[t].round in s.published && s.published[s.threads[t].round] == s.threads[t].value
  }

  ghost predicate Inv<V>(s: State<V>) {
    Together(s) && Winners(s) && Values(s)
  }

  lemma BeginInv<V>(values: seq<V>)
    ensures Inv(Begin(values))
  {
  }

  lemma PairStays<V>(s: State<V>, t: int, act: Act<V>, u: int, w: int)
    requires Can(s, t, act) && 0 <= u < |s.threads| && 0 <= w < |s.threads| && Reached(s.threads[u], s.threads[w])
    ensures |Do(s, t, act).threads| == |s.threads| && Reached(Do(s, t, act).threads[u], Do(s, t, act).threads[w])
  {
  }

  lemma StepKeepsTogether<V>(s: State<V>, t: int, act: Act<V>)
    requires Together(s) && Can(s, t, act)
    ensures Together(Do(s, t, act))
  {
    hide Do;
    var s' := Do(s, t, act);
    SameThreads(s, t, act);
    forall u, w | 0 <= u < |s'.threads| && 0 <= w < |s'.threads| ensures Reached(s'.threads[u], s'.threads[w]) {
      assert Reached(s.threads[u], s.threads[w]);
      PairStays(s, t, act, u, w);
    }
  }

  lemma CounterStays<V>(s: State<V>, t: int, act: Act<V>)
    requires Can(s, t, act) && |s.winners| == s.counter
    ensures var s' := Do(s, t, act);
            && |s'.threads| == |s.threads| && |s'.winners| == s'.counter && s.counter <= s'.counter
            && (s'.counter > s.counter ==> act.EnterSingle? && s'.counter == s.counter + 1)
  {
  }

  lemma RoundStays<V>(s: State<V>, t: int, act: Act<V>, r: int)
    requires Can(s, t, act) && |s.winners| == s.counter && 0 <= r < |Do(s, t, act).winners|
             && (r < |s.winners| ==> WonBySomeone(s, r))
    ensures WonBySomeone(Do(s, t, act), r)
  {
  }

  lemma KnowledgeStays<V>(s: State<V>, t: int, act: Act<V>, u: int)
    requires Can(s, t, act) && |s.winners| == s.counter && 0 <= u < |s.threads| && KnowsWinner(s, t)
             && KnowsWinner(s, u)
    requires forall r | 0 <= r < |s.winners| :: WonBySomeone(s, r)
    ensures var s' := Do(s, t, act);
            |s'.threads| == |s.threads| && |s'.winners| == s'.counter && KnowsWinner(s', u)
  {
    if act.EnterSingle? && u == t && s.threads[t].round < |s.winners| {
      assert WonBySomeone(s, s.threads[t].round);
    }
  }

  lemma StepKeepsWinners<V>(s: State<V>, t: int, act: Act<V>)
    requires Winners(s) && Can(s, t, act)
    ensures Winners(Do(s, t, act))
  {
    hide Do, WonBySomeone, KnowsWinner;
    var s' := Do(s, t, act);
    assert KnowsWinner(s, t);
    CounterStays(s, t, act);
    forall r | 0 <= r < |s'.winners| ensures WonBySomeone(s', r) {
      assert r < |s.winners| ==> WonBySomeone(s, r);
      RoundStays(s, t, act, r);
    }
    forall u | 0 <= u < |s'.threads| ensures KnowsWinner(s', u) {
      assert KnowsWinner(s, u);
      KnowledgeStays(s, t, act, u);
    }
  }

  /** The winner of a round in which a thread is copying is in that round, and has published. */
  lemma WinnerStays<V>(s: State<V>, t: int)
    requires Inv(s) && 0 <= t < |s.threads| && s.threads[t].phase.Copying?
    ensures var r := s.threads[t].round;
            && r < |s.winners| && 0 <= s.winners[r] < |s.threads|
            && s.threads[s.winners[r]].round == r && Rank(s.threads[s.winners[r]].phase) >= 3
            && s.threads[s.winners[r]].won
            && s.pointer == s.winners[r] && HasValue(s, s.pointer)
  {
    var r := s.threads[t].round;
    assert KnowsWinner(s, t) && WonBySomeone(s, r);
    var w := s.winners[r];
    assert KnowsWinner(s, w);
    assert Reached(s.threads[t], s.threads[w]) && Reached(s.threads[w], s.threads[t]);
    assert s.threads[w].round == r;
  }

  lemma StepKeepsHolds<V>(s: State<V>, t: int, act: Act<V>, u: int)
    requires Inv(s) && Can(s, t, act) && 0 <= u < |s.threads|
    ensures var s' := Do(s, t, act);
            (Rank(s'.threads[u].phase) >= 3 && s'.threads[u].won) || Rank(s'.threads[u].phase) == 5 ==> HasValue(s', u)
  {
    if act.Copy? { WinnerStays(s, t); }
    if act.Publish? && u != t {
      assert Reached(s.threads[u], s.threads[t]) && KnowsWinner(s, u) && KnowsWinner(s, t);
    }
  }

  lemma PositionGrows<V>(s: State<V>, t: int, act: Act<V>, u: int)
    requires Can(s, t, act) && 0 <= u < |s.threads|
    ensures |Do(s, t, act).threads| == |s.threads| && Position(Do(s, t, act).threads[u]) >= Position(s.threads[u])
  {
  }

  /** Only publishing makes a thread a winner with a published value, or moves the pointer. */
  lemma OnlyPublishMatters<V>(s: State<V>, t: int, act: Act<V>, w: int)
    requires Can(s, t, act) && !act.Publish? && 0 <= w < |s.threads|
    ensures Do(s, t, act).pointer == s.pointer && |Do(s, t, act).threads| == |s.threads|
    ensures var x, x' := s.threads[w], Do(s, t, act).threads[w];
            Rank(x'.phase) >= 3 && x'.won ==> Rank(x.phase) >= 3 && x.won && x.round == x'.round
  {
  }

  /** When the winner of a round is about to publish, everybody has copied what the winners of
      earlier rounds published. */
  lemma EarlierRoundsAreOver<V>(s: State<V>, t: int, w: int, u: int)
    requires Together(s) && Winners(s) && 0 <= t < |s.threads| && 0 <= w < |s.threads| && 0 <= u < |s.threads| && w != t
    requires s.threads[t].phase.Publishing? && s.threads[t].won && Rank(s.threads[w].phase) >= 3 && s.threads[w].won
    ensures s.threads[w].round < s.threads[t].round && Position(s.threads[u]) >= 6 * s.threads[w].round + 5
  {
    hide Together, Winners;
    NotBehind(s, w, t);
    NotBehind(s, t, u);
    WonBy(s, t);
    WonBy(s, w);
  }

  lemma NotBehind<V>(s: State<V>, t: int, u: int)
    requires Together(s) && 0 <= t < |s.threads| && 0 <= u < |s.threads|
    ensures Position(s.threads[u]) >= 6 * (s.threads[t].round as int) - 1
  {
    assert Reached(s.threads[t], s.threads[u]);
  }

  lemma WonBy<V>(s: State<V>, t: int)
    requires Winners(s) && 0 <= t < |s.threads| && !s.threads[t].phase.Outside? && s.threads[t].won
    ensures s.threads[t].round < |s.winners| && s.winners[s.threads[t].round] == t
  {
    assert KnowsWinner(s, t);
  }

  lemma PublishKeepsPointer<V>(s: State<V>, t: int, w: int, u: int)
    requires Inv(s) && Can(s, t, Publish) && 0 <= w < |s.threads| && 0 <= u < |s.threads|
    requires var x := Do(s, t, Publish).threads[w];
             Rank(x.phase) >= 3 && x.won && Position(Do(s, t, Publish).threads[u]) < 6 * x.round + 5
    ensures Do(s, t, Publish).pointer == w
  {
    hide Together, Winners, HasValue;
    PositionGrows(s, t, Publish, u);
    if w != t {
      if s.threads[t].won { EarlierRoundsAreOver(s, t, w, u); }
    }
  }

  lemma StepKeepsPointer<V>(s: State<V>, t: int, act: Act<V>, w: int, u: int)
    requires Inv(s) && Can(s, t, act) && 0 <= w < |s.threads| && 0 <= u < |s.threads|
    requires var x := Do(s, t, act).threads[w];
             Rank(x.phase) >= 3 && x.won && Position(Do(s, t, act).threads[u]) < 6 * x.round + 5
    ensures Do(s, t, act).pointer == w
  {
    hide Together, Winners, HasValue, Do;
    if act.Publish? {
      PublishKeepsPointer(s, t, w, u);
    } else {
      PositionGrows(s, t, act, u);
      OnlyPublishMatters(s, t, act, w);
    }
  }

  lemma StepKeepsInv<V>(s: State<V>, t: int, act: Act<V>)
    requires Inv(s) && Can(s, t, act)
    ensures Inv(Do(s, t, act))
  {
    hide Together, Winners, HasValue, Do;
    var s' := Do(s, t, act);
    StepKeepsTogether(s, t, act);
    StepKeepsWinners(s, t, act);
    SameThreads(s, t, act);
    forall u | 0 <= u < |s'.threads|
      ensures (Rank(s'.threads[u].phase) >= 3 && s'.threads[u].won) || Rank(s'.threads[u].phase) == 5 ==>
                HasValue(s', u) {
      StepKeepsHolds(s, t, act, u);
    }
    forall w, u | 0 <= w < |s'.threads| && 0 <= u < |s'.threads| && Rank(s'.threads[w].phase) >= 3 && s'.threads[w].won
      ensures Position(s'.threads[u]) < 6 * s'.threads[w].round + 5 ==> s'.pointer == w
    {
      if Position(s'.threads[u]) < 6 * s'.threads[w].round + 5 { StepKeepsPointer(s, t, act, w, u); }
    }
  }

  lemma SameThreads<V>(s: State<V>, t: int, act: Act<V>)
    requires Can(s, t, act)
    ensures |Do(s, t, act).threads| == |s.threads|
  {
  }

  lemma {:induction false} RunKeepsInv<V>(s: State<V>, run: seq<(int, Act<V>)>, s': State<V>)
    requires Inv(s) && Reaches(s, run, s')
    ensures Inv(s')
    decreases |run|
  {
    hide Inv, Can, Do;
    if run != [] {
      StepKeepsInv(s, run[0].0, run[0].1);
      RunKeepsInv(Do(s, run[0].0, run[0].1), run[1..], s');
    }
  }

  // ------------------------------------------------ the guarantees

  /** Every round that some thread has entered has exactly one winner. */
  lemma OneWinnerPerRound<V>(values: seq<V>, run: seq<(int, Act<V>)>, s: State<V>, t: int)
    requires Reaches(Begin(values), run, s) && 0 <= t < |s.threads| && !s.threads[t].phase.Outside?
    ensures var r := s.threads[t].round;
            && r < |s.winners| && (s.threads[t].won <==> s.winners[r] == t)
            && forall u | 0 <= u < |s.threads| && !s.threads[u].phase.Outside? && s.threads[u].round == r
                          && s.threads[u].won && s.threads[t].won :: u == t
  {
    hide Together, Values, Reaches;
    BeginInv(values);
    RunKeepsInv(Begin(values), run, s);
    assert KnowsWinner(s, t);
    forall u | 0 <= u < |s.threads| && !s.threads[u].phase.Outside? && s.threads[u].round == s.threads[t].round
               && s.threads[u].won && s.threads[t].won
      ensures u == t
    {
      assert KnowsWinner(s, u);
    }
  }

  /** Main result: in every round of every run, cpy_func finds the pointer on the winner's variable,
      and when a thread is about to leave __kmpc_copyprivate its variable holds the value that the
      winner of its round published. */
  lemma EveryThreadGetsTheValue<V>(values: seq<V>, run: seq<(int, Act<V>)>, s: State<V>, t: int)
    requires Reaches(Begin(values), run, s) && 0 <= t < |s.threads|
    ensures s.threads[t].phase.Copying? ==>
              Can(s, t, Copy) && s.threads[t].round < |s.winners| && s.pointer == s.winners[s.threads[t].round]
    ensures s.threads[t].phase.Copied? ==>
              s.threads[t].round in s.published && s.threads[t].value == s.published[s.threads[t].round]
  {
    hide Together, Winners, Reaches;
    BeginInv(values);
    RunKeepsInv(Begin(values), run, s);
    if s.threads[t].phase.Copying? { WinnerStays(s, t); }
    if s.threads[t].phase.Copied? { assert HasValue(s, t); }
  }

  // ------------------------------------------------ values between and after the constructs

  /** The thread t itself assigns to its variable in the run, or cpy_func does. */
  predicate Assigns<V>(run: seq<(int, Act<V>)>, t: int) {
    exists i :: 0 <= i < |run| && run[i].0 == t && (run[i].1.Change? || run[i].1.Copy?)
  }

  /** A step changes the variable of a thread only by the thread's own assignment, which leaves the
      value assigned, or by its cpy_func, which leaves that of the thread the pointer is on. */
  lemma OnlyAssigningChanges<V>(s: State<V>, t: int, act: Act<V>, u: int)
    requires Can(s, t, act) && 0 <= u < |s.threads|
    ensures |Do(s, t, act).threads| == |s.threads|
    ensures Do(s, t, act).threads[u].value ==
            if u == t && act.Change? then act.v
            else if u == t && act.Copy? then s.threads[s.pointer].value
            else s.threads[u].value
  {
  }

  lemma AssignsLater<V>(run: seq<(int, Act<V>)>, t: int)
    requires run != []
    ensures Assigns(run[1..], t) ==> Assigns(run, t)
  {
    var rest := run[1..];
    if i :| 0 <= i < |rest| && rest[i].0 == t && (rest[i].1.Change? || rest[i].1.Copy?) {
      var next := i + 1;
      assert run[next] == rest[i];
    }
  }

  lemma {:induction false} ValueStays<V>(s: State<V>, run: seq<(int, Act<V>)>, s': State<V>, t: int)
    requires Reaches(s, run, s') && 0 <= t < |s.threads| && !Assigns(run, t)
    ensures |s'.threads| == |s.threads| && s'.threads[t].value == s.threads[t].value
    decreases |run|
  {
    hide Do, Can;
    if run != [] {
      OnlyAssigningChanges(s, run[0].0, run[0].1, t);
      AssignsLater(run, t);
      ValueStays(Do(s, run[0].0, run[0].1), run[1..], s', t);
    }
  }

  /** All threads are beyond the publishing in round r. */
  ghost predicate PastPublishing<V>(s: State<V>, r: nat) {
    AllAt(s, 6 * r + 3)
  }

  lemma {:induction false} PublishedStays<V>(s: State<V>, run: seq<(int, Act<V>)>, s': State<V>, r: nat)
    requires Reaches(s, run, s') && PastPublishing(s, r) && r in s.published
    ensures r in s'.published && s'.published[r] == s.published[r]
    decreases |run|
  {
    hide Do, Reaches;
    if run == [] {
      NoStep(s, s', run);
    } else {
      OneStep(s, run, s');
      var t, act := run[0].0, run[0].1;
      var s1 := Do(s, t, act);
      SameThreads(s, t, act);
      forall u | 0 <= u < |s1.threads| ensures Position(s1.threads[u]) >= 6 * r + 3 {
        assert Position(s.threads[u]) >= 6 * r + 3;
        PositionGrows(s, t, act, u);
      }
      LaterRoundsPublish(s, t, act, r);
      PublishedStays(s1, run[1..], s', r);
    }
  }

  lemma NoStep<V>(s: State<V>, s': State<V>, run: seq<(int, Act<V>)>)
    requires Reaches(s, run, s') && run == []
    ensures s' == s
  {
  }

  lemma OneStep<V>(s: State<V>, run: seq<(int, Act<V>)>, s': State<V>)
    requires Reaches(s, run, s') && run != []
    ensures Can(s, run[0].0, run[0].1) && Reaches(Do(s, run[0].0, run[0].1), run[1..], s')
  {
  }

  lemma LaterRoundsPublish<V>(s: State<V>, t: int, act: Act<V>, r: nat)
    requires Can(s, t, act) && PastPublishing(s, r)
    ensures r in s.published ==> r in Do(s, t, act).published && Do(s, t, act).published[r] == s.published[r]
  {
    assert Position(s.threads[t]) >= 6 * r + 3;
  }

  /** Main result on what comes after: a thread that leaves the construct in round r holds the value
      published in round r, until it assigns to its variable or copies in a later round. */
  lemma HeldAfterwards<V>(values: seq<V>, run: seq<(int, Act<V>)>, s: State<V>, t: int, later: seq<(int, Act<V>)>,
                          s': State<V>)
    requires Reaches(Begin(values), run, s) && Can(s, t, PassSecond) && Reaches(Do(s, t, PassSecond), later, s')
    requires !Assigns(later, t)
    ensures |s'.threads| == |s.threads|
    ensures var r := s.threads[t].round;
            r in s.published && r in s'.published && s'.published[r] == s.published[r]
            && s'.threads[t].value == s.published[r]
  {
    hide Reaches, Do, Together, Winners, Assigns;
    var r, s1 := s.threads[t].round, Do(s, t, PassSecond);
    EveryThreadGetsTheValue(values, run, s, t);
    OnlyAssigningChanges(s, t, PassSecond, t);
    ValueStays(s1, later, s', t);
    SameThreads(s, t, PassSecond);
    forall u | 0 <= u < |s1.threads| ensures Position(s1.threads[u]) >= 6 * r + 3 {
      assert Position(s.threads[u]) >= Position(s.threads[t]);
      PositionGrows(s, t, PassSecond, u);
    }
    LeavingPublishesNothing(s, t);
    PublishedStays(s1, later, s', r);
  }

  lemma LeavingPublishesNothing<V>(s: State<V>, t: int)
    requires Can(s, t, PassSecond)
    ensures Do(s, t, PassSecond).published == s.published
  {
  }

  /** And what a round publishes is what its winner assigned last. */
  lemma PublishedIsLastAssigned<V>(s: State<V>, t: int, v: V, later: seq<(int, Act<V>)>, s': State<V>)
    requires Can(s, t, Change(v)) && Reaches(Do(s, t, Change(v)), later, s') && !Assigns(later, t)
    requires Can(s', t, Publish) && s'.threads[t].won
    ensures var r := s'.threads[t].round;
            r in Do(s', t, Publish).published && Do(s', t, Publish).published[r] == v && Do(s', t, Publish).pointer == t
  {
    hide Reaches, Assigns;
    OnlyAssigningChanges(s, t, Change(v), t);
    ValueStays(Do(s, t, Change(v)), later, s', t);
  }

  /** What is published in a round is the value of its winner at that moment, and it stays. */
  lemma PublishedByTheWinner<V>(s: State<V>, t: int, act: Act<V>, r: int)
    requires Inv(s) && Can(s, t, act)
    ensures r in Do(s, t, act).published && (r !in s.published || Do(s, t, act).published[r] != s.published[r]) ==>
              r == s.threads[t].round && r < |s.winners| && s.winners[r] == t
              && Do(s, t, act).published[r] == s.threads[t].value
  {
    assert KnowsWinner(s, t);
  }

  /** The two barriers and the private values do not get in each other's way: the first thread that
      is behind all others can always go on. */
  lemma SlowestCanGoOn<V>(s: State<V>, t: int) returns (act: Act<V>)
    requires Inv(s) && 0 <= t < |s.threads| && forall u | 0 <= u < |s.threads| ::
               Position(s.threads[t]) <= Position(s.threads[u])
    ensures Can(s, t, act)
  {
    act := match s.threads[t].phase
      case Outside => EnterSingle
      case Body => EndBody
      case Publishing => Publish
      case Entering => PassFirst
      case Copying => Copy
      case Copied => PassSecond;
    if s.threads[t].phase.Copying? { WinnerStays(s, t); }
  }
}
