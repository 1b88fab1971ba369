/** The compare-and-swap loops of kmp_atomic.cpp: OP_CMPXCHG, OP_CMPXCHG_CPT, __kmpc_atomic_1/2/4/8
    and MIN_MAX_CMPXCHG, run by any number of threads on one cell. */
module Atomics {

  /** What one thread wants: the new value for an old one, and whether the loop still has to store
      it.  The plain updates always store; the minimum and maximum stop when nothing would change. */
  datatype Update<!V> = Update(f: V -> V, needed: V -> bool)

  /** Stopping early is right only if the update changes nothing. */
  ghost predicate Sound<V(!new)>(u: Update<V>) {
    forall v :: !u.needed(v) ==> u.f(v) == v
  }

  /** A thread: before it reads the cell; with the value read, about to compare and swap; finished,
      with the value it replaced and the value it stored. */
  datatype Thread<V> = Ready | HasRead(seen: V) | Finished(before: V, after: V)

  /** One update that has taken effect. */
  datatype Commit<V> = Commit(thread: nat, before: V, after: V)

  datatype State<V> = State(cell: V, threads: seq<Thread<V>>, log: seq<Commit<V>>)

  function Begin<V>(v: V, n: nat): State<V> {
    State(v, seq(n, _ => Ready), [])
  }

  /** The read.  If the update is not needed for the value read, the loop ends here. */
  function Read<V>(us: seq<Update<V>>, s: State<V>, t: nat): State<V>
    requires |us| == |s.threads| && t < |us|
  {
    if us[t].needed(s.cell) then s.(threads := s.threads[t := HasRead(s.cell)])
    else s.(threads := s.threads[t := Finished(s.cell, s.cell)], log := s.log + [Commit(t, s.cell, s.cell)])
  }

  /** The compare and swap: it stores if the cell still holds the value read, else the thread has to
      read again.  The cell may have changed and changed back in between. */
  function CompareAndSwap<V(==)>(us: seq<Update<V>>, s: State<V>, t: nat): State<V>
    requires |us| == |s.threads| && t < |us| && s.threads[t].HasRead?
  {
    var seen := s.threads[t].seen;
    if s.cell == seen
    then State(us[t].f(seen), s.threads[t := Finished(seen, us[t].f(seen))],
               s.log + [Commit(t, seen, us[t].f(seen))])
    else s.(threads := s.threads[t := Ready])
  }

  predicate Can<V>(us: seq<Update<V>>, s: State<V>, t: nat) {
    |us| == |s.threads| && t < |us| && !s.threads[t].Finished?
  }

  function Step<V(==)>(us: seq<Update<V>>, s: State<V>, t: nat): State<V>
    requires Can(us, s, t)
  {
    if s.threads[t].Ready? then Read(us, s, t) else CompareAndSwap(us, s, t)
  }

  /** An interleaving: the threads in the order of their steps. */
  ghost predicate Reaches<V>(us: seq<Update<V>>, s: State<V>, run: seq<nat>, s': State<V>)
    decreases |run|
  {
    if run == [] then s == s' else Can(us, s, run[0]) && Reaches(us, Step(us, s, run[0]), run[1..], s')
  }

  // ------------------------------------------------ one update after the other

  /** The value of the cell when the threads of the log make their updates one after the other. */
  function InTurn<V>(us: seq<Update<V>>, v: V, log: seq<Commit<V>>): V
    requires forall c | c in log :: c.thread < |us|
  {
    if log == [] then v else us[log[|log| - 1].thread].f(InTurn(us, v, log[..|log| - 1]))
  }

  /** Each entry of the log is the update of its thread on the value the earlier entries leave. */
  ghost predicate Serial<V>(us: seq<Update<V>>, v: V, log: seq<Commit<V>>) {
    && (forall c | c in log :: c.thread < |us|)
    && forall i | 0 <= i < |log| ::
         log[i].before == InTurn(us, v, log[..i]) && log[i].after == us[log[i].thread].f(log[i].before)
  }

  /** The log has exactly one entry for every finished thread and none for the others. */
  ghost predicate Matches<V>(s: State<V>) {
    && (forall i | 0 <= i < |s.log| ::
          s.log[i].thread < |s.threads| && s.threads[s.log[i].thread] == Finished(s.log[i].before, s.log[i].after))
    && (forall t | 0 <= t < |s.threads| && s.threads[t].Finished? :: exists i ::
        0 <= i < |s.log| && s.log[i].thread == t)
    && forall i, j | 0 <= i < j < |s.log| :: s.log[i].thread != s.log[j].thread
  }

  ghost predicate Inv<V>(us: seq<Update<V>>, v: V, s: State<V>) {
    |s.threads| == |us| && Matches(s) && Serial(us, v, s.log) && s.cell == InTurn(us, v, s.log)
  }

  lemma InTurnNext<V>(us: seq<Update<V>>, v: V, log: seq<Commit<V>>, c: Commit<V>)
    requires Serial(us, v, log) && c.thread < |us| && c.before == InTurn(us, v, log)
             && c.after == us[c.thread].f(c.before)
    ensures Serial(us, v, log + [c]) && InTurn(us, v, log + [c]) == c.after
  {
    var log' := log + [c];
    assert log'[..|log|] == log;
    forall i | 0 <= i < |log'|
      ensures log'[i].before == InTurn(us, v, log'[..i]) && log'[i].after == us[log'[i].thread].f(log'[i].before) {
      assert log'[..i] == if i < |log| then log[..i] else log;
    }
  }

  /** A thread that finishes is entered in the log. */
  lemma MatchesNext<V>(s: State<V>, t: nat, before: V, after: V, cell: V)
    requires Matches(s) && t < |s.threads| && !s.threads[t].Finished?
    ensures Matches(State(cell, s.threads[t := Finished(before, after)], s.log + [Commit(t, before, after)]))
  {
    var s' := State(cell, s.threads[t := Finished(before, after)], s.log + [Commit(t, before, after)]);
    forall u | 0 <= u < |s'.threads| && s'.threads[u].Finished?
      ensures exists i :: 0 <= i < |s'.log| && s'.log[i].thread == u {
      if u == t {
        assert s'.log[|s.log|].thread == t;
      } else {
        var i :| 0 <= i < |s.log| && s.log[i].thread == u;
        assert s'.log[i].thread == u;
      }
    }
  }

  lemma MatchesSame<V>(s: State<V>, t: nat, x: Thread<V>)
    requires Matches(s) && t < |s.threads| && !s.threads[t].Finished? && !x.Finished?
    ensures Matches(s.(threads := s.threads[t := x]))
  {
  }

  lemma StepKeepsInv<V(!new)>(us: seq<Update<V>>, v: V, s: State<V>, t: nat)
    requires Inv(us, v, s) && Can(us, s, t) && Sound(us[t])
    ensures Inv(us, v, Step(us, s, t))
  {
    hide Matches, Serial;
    if s.threads[t].Ready? {
      if us[t].needed(s.cell) {
        MatchesSame(s, t, HasRead(s.cell));
      } else {
        MatchesNext(s, t, s.cell, s.cell, s.cell);
        InTurnNext(us, v, s.log, Commit(t, s.cell, s.cell));
      }
    } else {
      var seen := s.threads[t].seen;
      if s.cell == seen {
        MatchesNext(s, t, seen, us[t].f(seen), us[t].f(seen));
        InTurnNext(us, v, s.log, Commit(t, seen, us[t].f(seen)));
      } else {
        MatchesSame(s, t, Ready);
      }
    }
  }

  lemma {:induction false} RunKeepsInv<V(!new)>(us: seq<Update<V>>, v: V, s: State<V>, run: seq<nat>, s': State<V>)
    requires (forall t | 0 <= t < |us| :: Sound(us[t])) && Inv(us, v, s) && Reaches(us, s, run, s')
    ensures Inv(us, v, s')
    decreases |run|
  {
    hide Inv, Step, Sound;
    if run != [] {
      StepKeepsInv(us, v, s, run[0]);
      RunKeepsInv(us, v, Step(us, s, run[0]), run[1..], s');
    }
  }

  lemma BeginInv<V>(us: seq<Update<V>>, v: V)
    ensures Inv(us, v, Begin(v, |us|))
  {
  }

  /** Main result: in every interleaving the cell holds what the finished updates give when they are
      made once each, one after the other, in the order of the log; and each finished thread has
      captured the value just before and just after its own update. */
  lemma Linearizable<V(!new)>(us: seq<Update<V>>, v: V, run: seq<nat>, s: State<V>)
    requires (forall t | 0 <= t < |us| :: Sound(us[t])) && Reaches(us, Begin(v, |us|), run, s)
    ensures |s.threads| == |us| && Matches(s) && Serial(us, v, s.log) && s.cell == InTurn(us, v, s.log)
    ensures forall t | 0 <= t < |us| && s.threads[t].Finished? ::
              exists i :: 0 <= i < |s.log| && s.log[i] == Commit(t, s.threads[t].before, s.threads[t].after)
                          && s.threads[t].before == InTurn(us, v, s.log[..i])
                          && s.threads[t].after == us[t].f(s.threads[t].before)
  {
    BeginInv(us, v);
    RunKeepsInv(us, v, Begin(v, |us|), run, s);
    forall t | 0 <= t < |us| && s.threads[t].Finished?
      ensures exists i :: 0 <= i < |s.log| && s.log[i] == Commit(t, s.threads[t].before, s.threads[t].after)
                          && s.threads[t].before == InTurn(us, v, s.log[..i])
                          && s.threads[t].after == us[t].f(s.threads[t].before)
    {
      var i :| 0 <= i < |s.log| && s.log[i].thread == t;
    }
  }

  /** The log only grows. */
  lemma {:induction false} LogGrows<V>(us: seq<Update<V>>, s: State<V>, run: seq<nat>, s': State<V>)
    requires Reaches(us, s, run, s')
    ensures s.log <= s'.log
    decreases |run|
  {
    if run != [] { LogGrows(us, Step(us, s, run[0]), run[1..], s'); }
  }

  lemma PrefixAt<T>(a: seq<T>, b: seq<T>, i: nat)
    requires a <= b
    ensures i < |a| ==> a[i] == b[i]
  {
  }

  /** The order of the log respects time: a thread that has finished while another has not (it may
      not even have begun) comes before it. */
  lemma RespectsTime<V(!new)>(us: seq<Update<V>>, v: V, run: seq<nat>, s: State<V>, later: seq<nat>, s': State<V>,
                              i: nat, j: nat)
    requires (forall t | 0 <= t < |us| :: Sound(us[t])) && Reaches(us, Begin(v, |us|), run, s)
             && Reaches(us, s, later, s')
    requires i < |s'.log| && j < |s'.log| && s'.log[i].thread < |s.threads| && s'.log[j].thread < |s.threads|
    requires s.threads[s'.log[i].thread].Finished? && !s.threads[s'.log[j].thread].Finished?
    ensures i < j
  {
    hide Step, Sound, Serial;
    BeginInv(us, v);
    RunKeepsInv(us, v, Begin(v, |us|), run, s);
    RunKeepsInv(us, v, s, later, s');
    LogGrows(us, s, later, s');
    var k :| 0 <= k < |s.log| && s.log[k].thread == s'.log[i].thread;
    assert s'.log[k] == s.log[k];
    PrefixAt(s.log, s'.log, j);
  }

  // ------------------------------------------------ an update that meets no interference

  /** A swap takes effect exactly if the cell holds the value read: then it stores f of that value and
      the thread is finished; otherwise the thread reads again and nothing is stored. */
  lemma SwapTakesEffectIff<V>(us: seq<Update<V>>, s: State<V>, t: nat)
    requires Can(us, s, t) && s.threads[t].HasRead?
    ensures var seen, s' := s.threads[t].seen, Step(us, s, t);
            if s.cell == seen then
              && s'.cell == us[t].f(s.cell)
              && s'.threads == s.threads[t := Finished(s.cell, us[t].f(s.cell))]
            else s' == s.(threads := s.threads[t := Ready])
  {
  }

  /** Steps of other threads between the read and the swap do no harm as long as the cell ends up with
      the value read: then the update is done once, on that value. */
  lemma UndisturbedUpdate<V(!new)>(us: seq<Update<V>>, s: State<V>, t: nat, others: seq<nat>, s': State<V>)
    requires Can(us, s, t) && s.threads[t].Ready? && us[t].needed(s.cell)
    requires Reaches(us, Step(us, s, t), others, s') && t !in others && s'.cell == s.cell
    ensures Can(us, s', t)
    ensures var end := Step(us, s', t);
            && end.cell == us[t].f(s.cell) && end.threads[t] == Finished(s.cell, us[t].f(s.cell))
            && end.log == s'.log + [Commit(t, s.cell, us[t].f(s.cell))]
  {
    OthersKeep(us, Step(us, s, t), others, s', t);
  }

  /** An update that is not needed ends at the read and stores nothing. */
  lemma NotNeededEnds<V>(us: seq<Update<V>>, s: State<V>, t: nat)
    requires Can(us, s, t) && s.threads[t].Ready? && !us[t].needed(s.cell)
    ensures Step(us, s, t).cell == s.cell && Step(us, s, t).threads[t] == Finished(s.cell, s.cell)
  {
  }

  lemma {:induction false} OthersKeep<V>(us: seq<Update<V>>, s: State<V>, run: seq<nat>, s': State<V>, t: nat)
    requires Reaches(us, s, run, s') && t !in run && |us| == |s.threads| && t < |us|
    ensures |s'.threads| == |us| && s'.threads[t] == s.threads[t]
    decreases |run|
  {
    if run != [] { OthersKeep(us, Step(us, s, run[0]), run[1..], s', t); }
  }

  // ------------------------------------------------ minimum and maximum

  /** MIN_MAX_CMPXCHG: store rhs while `old OP rhs` holds; OP is < for the maximum, > for the
      minimum. */
  function Extreme(max: bool, rhs: int): Update<int> {
    Update(v => if (if max then v < rhs else v > rhs) then rhs else v, v => if max then v < rhs else v > rhs)
  }

  function Extremes(max: bool, rhs: seq<int>): (us: seq<Update<int>>)
    ensures |us| == |rhs|
  {
    seq(|rhs|, t requires 0 <= t < |rhs| => Extreme(max, rhs[t]))
  }

  /** x is the largest, or smallest, of v and the operands of the threads in the log. */
  ghost predicate IsExtreme(max: bool, rhs: seq<int>, v: int, log: seq<Commit<int>>, x: int) {
    && (x == v || exists i :: 0 <= i < |log| && log[i].thread < |rhs| && x == rhs[log[i].thread])
    && (if max then v <= x else x <= v)
    && forall i | 0 <= i < |log| && log[i].thread < |rhs| ::
         if max then rhs[log[i].thread] <= x else x <= rhs[log[i].thread]
  }

  lemma {:induction false} InTurnIsExtreme(max: bool, rhs: seq<int>, v: int, log: seq<Commit<int>>)
    requires forall c | c in log :: c.thread < |rhs|
    ensures IsExtreme(max, rhs, v, log, InTurn(Extremes(max, rhs), v, log))
  {
    if log != [] {
      var front, c := log[..|log| - 1], log[|log| - 1];
      InTurnIsExtreme(max, rhs, v, front);
      var before, x := InTurn(Extremes(max, rhs), v, front), InTurn(Extremes(max, rhs), v, log);
      assert x == Extreme(max, rhs[c.thread]).f(before);
      if x == before && before != v {
        var i :| 0 <= i < |front| && front[i].thread < |rhs| && before == rhs[front[i].thread];
        assert log[i] == front[i];
      }
      forall i | 0 <= i < |log| ensures if max then rhs[log[i].thread] <= x else x <= rhs[log[i].thread] {
        if i < |front| { assert log[i] == front[i]; }
      }
    }
  }

  /** When all threads have finished, the cell holds the extreme of the start value and all
      operands, although threads whose operand was beaten never store. */
  lemma ExtremeOfAll(max: bool, rhs: seq<int>, v: int, run: seq<nat>, s: State<int>)
    requires Reaches(Extremes(max, rhs), Begin(v, |rhs|), run, s) && forall t | 0 <= t < |s.threads| ::
               s.threads[t].Finished?
    ensures s.cell == v || s.cell in rhs
    ensures (if max then v <= s.cell else s.cell <= v) && forall t | 0 <= t < |rhs| ::
              if max then rhs[t] <= s.cell else s.cell <= rhs[t]
  {
    hide Reaches, Serial, InTurn, Matches, Sound, IsExtreme, Extremes;
    var us := Extremes(max, rhs);
    ExtremesSound(max, rhs);
    Linearizable(us, v, run, s);
    LogThreads(us, v, s.log);
    InTurnIsExtreme(max, rhs, v, s.log);
    EveryOperandCounts(max, rhs, v, s);
  }

  lemma ExtremesSound(max: bool, rhs: seq<int>)
    ensures forall t | 0 <= t < |rhs| :: Sound(Extremes(max, rhs)[t])
  {
  }

  lemma EveryOperandCounts(max: bool, rhs: seq<int>, v: int, s: State<int>)
    requires |s.threads| == |rhs| && Matches(s) && (forall t | 0 <= t < |s.threads| :: s.threads[t].Finished?)
             && IsExtreme(max, rhs, v, s.log, s.cell)
    ensures s.cell == v || s.cell in rhs
    ensures (if max then v <= s.cell else s.cell <= v) && forall t | 0 <= t < |rhs| ::
              if max then rhs[t] <= s.cell else s.cell <= rhs[t]
  {
    forall t | 0 <= t < |rhs| ensures if max then rhs[t] <= s.cell else s.cell <= rhs[t] {
      assert s.threads[t].Finished?;
      var i :| 0 <= i < |s.log| && s.log[i].thread == t;
    }
  }

  lemma LogThreads<V>(us: seq<Update<V>>, v: V, log: seq<Commit<V>>)
    requires Serial(us, v, log)
    ensures forall c | c in log :: c.thread < |us|
  {
  }
}
