/** Tasks joined by futures, as HPX runs them: a task may take its first step once the
    future of every predecessor is ready, and its own future becomes ready after its last
    step.  Steps of different tasks interleave freely.

    A task body is a sequence of atomic actions.  Each action reads some locations and
    writes one of them, so what an action can see or change is fixed by its shape. */
module TaskGraph {

  /** One atomic step of a task body: `target := f(values of uses)`. */
  datatype Action<!L, !V> = Action(uses: set<L>, target: L, f: map<L, V> -> V)

  type Store<L, V> = map<L, V>

  function View<L, V>(s: Store<L, V>, ls: set<L>): Store<L, V> {
    map l | l in ls && l in s :: s[l]
  }

  function Exec<L, V>(a: Action<L, V>, s: Store<L, V>): Store<L, V> {
    s[a.target := a.f(View(s, a.uses))]
  }

  function RunBody<L, V>(body: seq<Action<L, V>>, s: Store<L, V>): Store<L, V> {
    if body == [] then s else Exec(body[|body| - 1], RunBody(body[..|body| - 1], s))
  }

  /** Neither action writes a location the other one touches. */
  predicate Independent<L, V>(a: Action<L, V>, b: Action<L, V>) {
    a.target != b.target && a.target !in b.uses && b.target !in a.uses
  }

  predicate IndependentBodies<L, V>(a: seq<Action<L, V>>, b: seq<Action<L, V>>) {
    forall i, j | 0 <= i < |a| && 0 <= j < |b| :: Independent(a[i], b[j])
  }

  // ---------------------------------------------------------------- the graph

  /** g[t] is the set of tasks whose futures task t waits for; they were created earlier. */
  type Graph = seq<set<nat>>

  predicate WellFormed(g: Graph) {
    forall t, p | 0 <= t < |g| && p in g[t] :: p < t
  }

  /** A non-empty chain of futures leads from s to t. */
  predicate Path(g: Graph, s: nat, t: nat)
    requires WellFormed(g) && t < |g|
    decreases t
  {
    s in g[t] || exists m | m in g[t] :: Path(g, s, m)
  }

  lemma {:induction false} PathTrans(g: Graph, a: nat, b: nat, c: nat)
    requires WellFormed(g) && b < |g| && c < |g|
    requires Path(g, a, b) && Path(g, b, c)
    ensures Path(g, a, c)
    decreases c
  {
    if b !in g[c] {
      var m :| m in g[c] && Path(g, b, m);
      PathTrans(g, a, b, m);
    }
  }

  lemma {:induction false} PathIncreases(g: Graph, a: nat, c: nat)
    requires WellFormed(g) && c < |g| && Path(g, a, c)
    ensures a < c
    decreases c
  {
    if a !in g[c] {
      var m :| m in g[c] && Path(g, a, m);
      PathIncreases(g, a, m);
    }
  }

  // ---------------------------------------------------------------- runs

  /** pc[t] counts the steps task t has taken: its actions, then one step that makes its
      future ready. */
  datatype State<L, V> = State(pc: seq<nat>, store: Store<L, V>)

  type Bodies<!L, !V> = seq<seq<Action<L, V>>>

  function Initial<L, V>(bodies: Bodies<L, V>, s: Store<L, V>): State<L, V> {
    State(seq(|bodies|, i => 0), s)
  }

  predicate Finished<L, V>(bodies: Bodies<L, V>, pc: seq<nat>, t: nat)
    requires |pc| == |bodies| && t < |bodies|
  {
    pc[t] > |bodies[t]|
  }

  predicate AllFinished<L, V>(bodies: Bodies<L, V>, pc: seq<nat>)
    requires |pc| == |bodies|
  {
    forall t | 0 <= t < |bodies| :: Finished(bodies, pc, t)
  }

  /** Task t is unfinished and every future it waits for is ready. */
  predicate Enabled<L, V>(g: Graph, bodies: Bodies<L, V>, pc: seq<nat>, t: nat)
    requires WellFormed(g) && |g| == |bodies| == |pc|
  {
    t < |bodies| && !Finished(bodies, pc, t) && forall p | p in g[t] :: Finished(bodies, pc, p)
  }

  function Step<L, V>(bodies: Bodies<L, V>, st: State<L, V>, t: nat): State<L, V>
    requires |st.pc| == |bodies| && t < |bodies| && !Finished(bodies, st.pc, t)
  {
    State(st.pc[t := st.pc[t] + 1],
          if st.pc[t] < |bodies[t]| then Exec(bodies[t][st.pc[t]], st.store) else st.store)
  }

  /** The schedule, a sequence of task numbers, takes st to st' by steps the futures allow. */
  ghost predicate Reaches<L, V>(g: Graph, bodies: Bodies<L, V>, st: State<L, V>, sched: seq<nat>, st': State<L, V>)
    requires WellFormed(g) && |g| == |bodies| == |st.pc|
    decreases |sched|
  {
    if sched == [] then st == st'
    else Enabled(g, bodies, st.pc, sched[0]) && Reaches(g, bodies, Step(bodies, st, sched[0]), sched[1..], st')
  }

  /** The tasks run one after the other in creation order. */
  function Sequential<L, V>(bodies: Bodies<L, V>, s: Store<L, V>): Store<L, V> {
    if bodies == [] then s else RunBody(bodies[|bodies| - 1], Sequential(bodies[..|bodies| - 1], s))
  }

  /** Every pair of conflicting tasks is joined by a chain of futures. */
  ghost predicate ConflictsOrdered<L, V>(g: Graph, bodies: Bodies<L, V>)
    requires WellFormed(g) && |g| == |bodies|
  {
    forall t, u | 0 <= t < u < |bodies| && !IndependentBodies(bodies[t], bodies[u]) :: Path(g, t, u)
  }

  // ---------------------------------------------------------------- determinacy

  /** What the first n tasks have done so far, replayed in creation order. */
  function Replay<L, V>(bodies: Bodies<L, V>, pc: seq<nat>, n: nat, s: Store<L, V>): Store<L, V>
    requires |pc| == |bodies| && n <= |bodies|
  {
    if n == 0 then s else RunBody(Done(bodies, pc, n - 1), Replay(bodies, pc, n - 1, s))
  }

  function Done<L, V>(bodies: Bodies<L, V>, pc: seq<nat>, t: nat): seq<Action<L, V>>
    requires |pc| == |bodies| && t < |bodies|
  {
    if pc[t] <= |bodies[t]| then bodies[t][..pc[t]] else bodies[t]
  }

  /** A task that has taken a step has all its predecessors finished. */
  predicate Causal<L, V>(g: Graph, bodies: Bodies<L, V>, pc: seq<nat>)
    requires WellFormed(g) && |g| == |bodies| == |pc|
  {
    forall t, p | 0 <= t < |g| && p in g[t] && pc[t] > 0 :: Finished(bodies, pc, p)
  }

  lemma {:induction false} CausalPath<L, V>(g: Graph, bodies: Bodies<L, V>, pc: seq<nat>, s: nat, t: nat)
    requires WellFormed(g) && |g| == |bodies| == |pc| && Causal(g, bodies, pc)
    requires s < t < |g| && Path(g, s, t) && pc[t] > 0
    ensures Finished(bodies, pc, s)
    decreases t
  {
    if s !in g[t] {
      var m :| m in g[t] && Path(g, s, m);
      assert Finished(bodies, pc, m);
      PathIncreases(g, s, m);
      CausalPath(g, bodies, pc, s, m);
    }
  }

  lemma ExecCommutes<L, V>(a: Action<L, V>, b: Action<L, V>, s: Store<L, V>)
    requires Independent(a, b)
    ensures Exec(a, Exec(b, s)) == Exec(b, Exec(a, s))
  {
    assert View(Exec(b, s), a.uses) == View(s, a.uses);
    assert View(Exec(a, s), b.uses) == View(s, b.uses);
  }

  lemma {:induction false} ExecCommutesBody<L, V>(a: Action<L, V>, body: seq<Action<L, V>>, s: Store<L, V>)
    requires forall b | b in body :: Independent(a, b)
    ensures Exec(a, RunBody(body, s)) == RunBody(body, Exec(a, s))
  {
    if body != [] {
      var front := body[..|body| - 1];
      ExecCommutes(a, body[|body| - 1], RunBody(front, s));
      ExecCommutesBody(a, front, s);
    }
  }

  /** The next action of an enabled task is independent of all that later tasks have done. */
  lemma NextIsIndependent<L, V>(g: Graph, bodies: Bodies<L, V>, pc: seq<nat>, t: nat, u: nat)
    requires WellFormed(g) && |g| == |bodies| == |pc| && t < u < |bodies|
    requires ConflictsOrdered(g, bodies) && Causal(g, bodies, pc) && Enabled(g, bodies, pc, t) && pc[t] < |bodies[t]|
    ensures forall b | b in Done(bodies, pc, u) :: Independent(bodies[t][pc[t]], b)
  {
    hide Independent;
    if pc[u] > 0 {
      if Path(g, t, u) { CausalPath(g, bodies, pc, t, u); }
      assert IndependentBodies(bodies[t], bodies[u]);
    }
  }

  /** A step of task t adds its action to what t has done, and to nothing else. */
  lemma OwnStep<L, V>(bodies: Bodies<L, V>, pc: seq<nat>, t: nat, u: nat, s: Store<L, V>)
    requires |pc| == |bodies| && t < |bodies| && u < |bodies|
    ensures var pc' := pc[t := pc[t] + 1];
            && (u != t ==> Done(bodies, pc', u) == Done(bodies, pc, u))
            && (u == t ==> RunBody(Done(bodies, pc', t), s) ==
                           if pc[t] < |bodies[t]| then Exec(bodies[t][pc[t]], RunBody(Done(bodies, pc, t), s))
                           else RunBody(Done(bodies, pc, t), s))
  {
    hide Exec;
    var pc' := pc[t := pc[t] + 1];
    if pc[t] < |bodies[t]| {
      assert Done(bodies, pc', t)[..pc[t]] == Done(bodies, pc, t);
    } else {
      assert Done(bodies, pc', t) == Done(bodies, pc, t);
    }
  }

  lemma EnabledIs<L, V>(g: Graph, bodies: Bodies<L, V>, pc: seq<nat>, t: nat)
    requires WellFormed(g) && |g| == |bodies| == |pc| && Enabled(g, bodies, pc, t)
    ensures t < |bodies|
  {
  }

  /** The next action of an enabled task t can be inserted at t's place in the replay. */
  lemma {:induction false} ReplayStep<L, V>(g: Graph, bodies: Bodies<L, V>, pc: seq<nat>, t: nat, n: nat,
                                            s: Store<L, V>)
    requires WellFormed(g) && |g| == |bodies| == |pc|
    requires ConflictsOrdered(g, bodies) && Causal(g, bodies, pc) && Enabled(g, bodies, pc, t)
    requires n <= |bodies|
    ensures t < |bodies|
    ensures var pc' := pc[t := pc[t] + 1];
            Replay(bodies, pc', n, s) ==
            if t < n && pc[t] < |bodies[t]| then Exec(bodies[t][pc[t]], Replay(bodies, pc, n, s))
            else Replay(bodies, pc, n, s)
  {
    hide Exec, ConflictsOrdered, Path, Causal, Done, RunBody, Enabled;
    EnabledIs(g, bodies, pc, t);
    if n > 0 {
      var u := n - 1;
      ReplayStep(g, bodies, pc, t, u, s);
      var before := Replay(bodies, pc, u, s);
      OwnStep(bodies, pc, t, u, before);
      if t < u && pc[t] < |bodies[t]| {
        NextIsIndependent(g, bodies, pc, t, u);
        ExecCommutesBody(bodies[t][pc[t]], Done(bodies, pc, u), before);
      }
    }
  }

  lemma StepCausal<L, V>(g: Graph, bodies: Bodies<L, V>, pc: seq<nat>, t: nat)
    requires WellFormed(g) && |g| == |bodies| == |pc| && Causal(g, bodies, pc) && Enabled(g, bodies, pc, t)
    ensures Causal(g, bodies, pc[t := pc[t] + 1])
  {
    var pc' := pc[t := pc[t] + 1];
    forall u, p | 0 <= u < |g| && p in g[u] && pc'[u] > 0 ensures Finished(bodies, pc', p) {
      assert Finished(bodies, pc, p);
    }
  }

  lemma {:induction false} RunIsReplay<L, V>(g: Graph, bodies: Bodies<L, V>, st: State<L, V>, sched: seq<nat>,
                                             st': State<L, V>, s: Store<L, V>)
    requires WellFormed(g) && |g| == |bodies| == |st.pc| == |st'.pc|
    requires ConflictsOrdered(g, bodies) && Causal(g, bodies, st.pc)
    requires Reaches(g, bodies, st, sched, st')
    requires st.store == Replay(bodies, st.pc, |bodies|, s)
    ensures st'.store == Replay(bodies, st'.pc, |bodies|, s) && Causal(g, bodies, st'.pc)
    decreases |sched|
  {
    if sched != [] {
      ReplayStep(g, bodies, st.pc, sched[0], |bodies|, s);
      StepCausal(g, bodies, st.pc, sched[0]);
      RunIsReplay(g, bodies, Step(bodies, st, sched[0]), sched[1..], st', s);
    }
  }

  lemma {:induction false} ReplayNothing<L, V>(bodies: Bodies<L, V>, n: nat, s: Store<L, V>)
    requires n <= |bodies|
    ensures Replay(bodies, Initial(bodies, s).pc, n, s) == s
  {
    if n > 0 { ReplayNothing(bodies, n - 1, s); }
  }

  lemma {:induction false} ReplayAll<L, V>(bodies: Bodies<L, V>, pc: seq<nat>, n: nat, s: Store<L, V>)
    requires |pc| == |bodies| && n <= |bodies| && AllFinished(bodies, pc)
    ensures Replay(bodies, pc, n, s) == Sequential(bodies[..n], s)
  {
    if n > 0 {
      ReplayAll(bodies, pc, n - 1, s);
      assert bodies[..n][..n - 1] == bodies[..n - 1];
      assert Finished(bodies, pc, n - 1);
    }
  }

  /** Main result: if chains of futures order all conflicts, every schedule that runs all
      tasks leaves the store of the sequential run. */
  lemma Determinacy<L, V>(g: Graph, bodies: Bodies<L, V>, s: Store<L, V>, sched: seq<nat>, end: State<L, V>)
    requires WellFormed(g) && |g| == |bodies| == |end.pc| && ConflictsOrdered(g, bodies)
    requires Reaches(g, bodies, Initial(bodies, s), sched, end) && AllFinished(bodies, end.pc)
    ensures end.store == Sequential(bodies, s)
  {
    ReplayNothing(bodies, |bodies|, s);
    RunIsReplay(g, bodies, Initial(bodies, s), sched, end, s);
    ReplayAll(bodies, end.pc, |bodies|, s);
    assert bodies[..|bodies|] == bodies;
  }

  /** No schedule gets stuck: while a task is unfinished, the oldest such task can step. */
  lemma {:induction false} Progress<L, V>(g: Graph, bodies: Bodies<L, V>, pc: seq<nat>, t: nat) returns (e: nat)
    requires WellFormed(g) && |g| == |bodies| == |pc|
    requires t < |bodies| && !Finished(bodies, pc, t)
    ensures Enabled(g, bodies, pc, e)
    decreases t
  {
    if p :| p in g[t] && !Finished(bodies, pc, p) {
      e := Progress(g, bodies, pc, p);
    } else {
      e := t;
    }
  }

  // ---------------------------------------------------------------- building schedules

  lemma {:induction false} ReachesTrans<L, V>(g: Graph, bodies: Bodies<L, V>, a: State<L, V>, s1: seq<nat>,
                                              b: State<L, V>, s2: seq<nat>, c: State<L, V>)
    requires WellFormed(g) && |g| == |bodies| == |a.pc| == |b.pc|
    requires Reaches(g, bodies, a, s1, b) && Reaches(g, bodies, b, s2, c)
    ensures Reaches(g, bodies, a, s1 + s2, c)
    decreases |s1|
  {
    if s1 == [] {
      assert s1 + s2 == s2;
    } else {
      assert (s1 + s2)[1..] == s1[1..] + s2;
      ReachesTrans(g, bodies, Step(bodies, a, s1[0]), s1[1..], b, s2, c);
    }
  }

  /** A task whose predecessors are finished can be run to its end without interruption. */
  lemma {:induction false} RunTask<L, V>(g: Graph, bodies: Bodies<L, V>, st: State<L, V>, t: nat, s: Store<L, V>)
    returns (sched: seq<nat>, end: State<L, V>)
    requires WellFormed(g) && |g| == |bodies| == |st.pc| && t < |bodies|
    requires forall p | p in g[t] :: Finished(bodies, st.pc, p)
    requires st.pc[t] <= |bodies[t]| && st.store == RunBody(bodies[t][..st.pc[t]], s)
    ensures Reaches(g, bodies, st, sched, end)
    ensures end == State(st.pc[t := |bodies[t]| + 1], RunBody(bodies[t], s))
    decreases |bodies[t]| - st.pc[t]
  {
    var next := Step(bodies, st, t);
    if st.pc[t] == |bodies[t]| {
      sched, end := [t], next;
      assert bodies[t][..st.pc[t]] == bodies[t];
    } else {
      assert bodies[t][..st.pc[t] + 1][..st.pc[t]] == bodies[t][..st.pc[t]];
      forall p | p in g[t] ensures Finished(bodies, next.pc, p) {
        assert Finished(bodies, st.pc, p);
      }
      var rest;
      rest, end := RunTask(g, bodies, next, t, s);
      sched := [t] + rest;
      assert sched[1..] == rest;
    }
  }

  /** The tasks below n that are in `which`, one after the other in creation order. */
  function RunOnly<L, V>(bodies: Bodies<L, V>, which: set<nat>, n: nat, s: Store<L, V>): Store<L, V>
    requires n <= |bodies|
  {
    if n == 0 then s
    else
      var s' := RunOnly(bodies, which, n - 1, s);
      if n - 1 in which then RunBody(bodies[n - 1], s') else s'
  }

  lemma NoSteps<L, V>(g: Graph, bodies: Bodies<L, V>, st: State<L, V>)
    requires WellFormed(g) && |g| == |bodies| == |st.pc|
    ensures Reaches(g, bodies, st, [], st)
  {
  }

  lemma NothingDone<L, V>(body: seq<Action<L, V>>, s: Store<L, V>)
    ensures RunBody(body[..0], s) == s
  {
  }

  /** A set of tasks that is closed under predecessors, up to what is already finished, can
      be run on its own. */
  lemma {:induction false} RunSet<L, V>(g: Graph, bodies: Bodies<L, V>, st: State<L, V>, which: set<nat>, n: nat)
    returns (sched: seq<nat>, end: State<L, V>)
    requires WellFormed(g) && |g| == |bodies| == |st.pc| && n <= |bodies|
    requires forall t | t in which && t < |bodies| :: st.pc[t] == 0
    requires forall t, p | t in which && t < |bodies| && p in g[t] :: p in which || Finished(bodies, st.pc, p)
    ensures Reaches(g, bodies, st, sched, end) && |end.pc| == |bodies|
    ensures forall t | 0 <= t < |bodies| ::
              end.pc[t] == if t in which && t < n then |bodies[t]| + 1 else st.pc[t]
    ensures end.store == RunOnly(bodies, which, n, st.store)
  {
    hide RunBody, Reaches;
    if n == 0 {
      sched, end := [], st;
      NoSteps(g, bodies, st);
    } else {
      sched, end := RunSet(g, bodies, st, which, n - 1);
      var t := n - 1;
      if t in which {
        forall p | p in g[t] ensures Finished(bodies, end.pc, p) {
          assert p in which || Finished(bodies, st.pc, p);
        }
        NothingDone(bodies[t], end.store);
        var more, mid := [], end;
        more, mid := RunTask(g, bodies, end, t, end.store);
        ReachesTrans(g, bodies, st, sched, end, more, mid);
        sched, end := sched + more, mid;
      }
    }
  }
}
