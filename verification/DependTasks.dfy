/** Tasks with `depend` clauses: which futures create_df_task makes a task wait for, and
    exactly when those futures make every schedule agree with creation order. */
module DependTasks {
  import opened TaskGraph

  /** kmp_depend_info: an address with its `in` and `out` flags. */
  datatype Dep<A> = Dep(addr: A, isIn: bool, isOut: bool)

  /** The two dependence lists the compiler passes for one task. */
  datatype Decl<A> = Decl(deps: seq<Dep<A>>, noalias: seq<Dep<A>>) {
    function All(): seq<Dep<A>> { deps + noalias }

    ghost predicate Names(a: A) { exists k | 0 <= k < |All()| :: All()[k].addr == a }

    ghost predicate Writes(a: A) { exists k | 0 <= k < |All()| :: All()[k].addr == a && All()[k].isOut }
  }

  /** Both lists count. */
  lemma BothLists<A>(decl: Decl<A>, a: A)
    ensures decl.Names(a) <==> exists d :: (d in decl.deps || d in decl.noalias) && d.addr == a
    ensures decl.Writes(a) <==> exists d :: (d in decl.deps || d in decl.noalias) && d.addr == a && d.isOut
  {
    forall d | d in decl.deps || d in decl.noalias ensures exists k :: 0 <= k < |decl.All()| && decl.All()[k] == d {
      assert d in decl.All();
    }
    forall k | 0 <= k < |decl.All()| ensures decl.All()[k] in decl.deps || decl.All()[k] in decl.noalias {
      assert decl.All()[k] in decl.All();
    }
  }

  // ------------------------------------------------ what one call does to df_map

  /** The futures found in df_map for a dependence list, in list order. */
  function Futures<A>(m: map<A, nat>, ds: seq<Dep<A>>): seq<nat> {
    if ds == [] then []
    else
      var d := ds[|ds| - 1];
      Futures(m, ds[..|ds| - 1]) + if d.addr in m then [m[d.addr]] else []
  }

  /** df_map after task t has been entered for every `out` address of the list. */
  function Publish<A>(m: map<A, nat>, ds: seq<Dep<A>>, t: nat): map<A, nat> {
    if ds == [] then m
    else
      var d := ds[|ds| - 1];
      var m' := Publish(m, ds[..|ds| - 1], t);
      if d.isOut then m'[d.addr := t] else m'
  }

  lemma {:induction false} FuturesAppend<A>(m: map<A, nat>, xs: seq<Dep<A>>, ys: seq<Dep<A>>)
    ensures Futures(m, xs + ys) == Futures(m, xs) + Futures(m, ys)
  {
    if ys == [] {
      assert xs + ys == xs;
    } else {
      assert (xs + ys)[..|xs + ys| - 1] == xs + ys[..|ys| - 1];
      FuturesAppend(m, xs, ys[..|ys| - 1]);
    }
  }

  lemma {:induction false} PublishAppend<A>(m: map<A, nat>, xs: seq<Dep<A>>, ys: seq<Dep<A>>, t: nat)
    ensures Publish(m, xs + ys, t) == Publish(Publish(m, xs, t), ys, t)
  {
    if ys == [] {
      assert xs + ys == xs;
    } else {
      assert (xs + ys)[..|xs + ys| - 1] == xs + ys[..|ys| - 1];
      PublishAppend(m, xs, ys[..|ys| - 1], t);
    }
  }

  lemma {:induction false} FuturesMeaning<A>(m: map<A, nat>, ds: seq<Dep<A>>, f: nat)
    ensures f in Futures(m, ds) <==> exists k :: 0 <= k < |ds| && ds[k].addr in m && m[ds[k].addr] == f
  {
    if ds != [] {
      var front := ds[..|ds| - 1];
      FuturesMeaning(m, front, f);
      if f in Futures(m, front) {
        var k :| 0 <= k < |front| && front[k].addr in m && m[front[k].addr] == f;
        assert ds[k] == front[k];
      }
    }
  }

  lemma {:induction false} PublishMeaning<A>(m: map<A, nat>, ds: seq<Dep<A>>, t: nat, a: A)
    ensures var out := exists k :: 0 <= k < |ds| && ds[k].addr == a && ds[k].isOut;
            && (a in Publish(m, ds, t) <==> out || a in m)
            && (a in Publish(m, ds, t) ==> Publish(m, ds, t)[a] == if out then t else m[a])
  {
    if ds != [] {
      var front := ds[..|ds| - 1];
      PublishMeaning(m, front, t, a);
      if k :| 0 <= k < |front| && front[k].addr == a && front[k].isOut {
        assert ds[k] == front[k];
      }
    }
  }

  class Team {
    const numThreads: int
    var numTasks: int

    constructor (threads: int)
      ensures numThreads == threads && numTasks == 0
    {
      numThreads := threads;
      numTasks := 0;
    }
  }

  /** The part of omp_task_data that create_df_task uses. */
  class TaskData<A(==)> {
    var numChildTasks: int
    var dfMap: map<A, nat>

    constructor ()
      ensures numChildTasks == 0 && dfMap == map[]
    {
      numChildTasks := 0;
      dfMap := map[];
    }

    /** The futures df_map holds for one dependence list. */
    method CollectFutures(ds: seq<Dep<A>>) returns (depFutures: seq<nat>)
      ensures depFutures == Futures(dfMap, ds)
    {
      depFutures := [];
      for i := 0 to |ds|
        invariant depFutures == Futures(dfMap, ds[..i])
      {
        assert ds[..i + 1][..i] == ds[..i];
        if ds[i].addr in dfMap {
          depFutures := depFutures + [dfMap[ds[i].addr]];
        }
      }
      assert ds[..|ds|] == ds;
    }

    /** Enters task t in df_map for every `out` address of one dependence list. */
    method EnterOutputs(ds: seq<Dep<A>>, t: nat)
      modifies `dfMap
      ensures dfMap == Publish(old(dfMap), ds, t)
    {
      for i := 0 to |ds|
        invariant dfMap == Publish(old(dfMap), ds[..i], t)
      {
        assert ds[..i + 1][..i] == ds[..i];
        if ds[i].isOut {
          dfMap := dfMap[ds[i].addr := t];
        }
      }
      assert ds[..|ds|] == ds;
    }

    /** Creates task t (the model names a future by the number of its task) and returns the
        futures it must wait for; none means the task is started at once. */
    method CreateDfTask(team: Team, t: nat, decl: Decl<A>) returns (depFutures: seq<nat>)
      requires team.numThreads > 1
      modifies this, team
      ensures depFutures == Futures(old(dfMap), decl.All())
      ensures dfMap == Publish(old(dfMap), decl.All(), t)
      ensures numChildTasks == old(numChildTasks) + 1
      ensures team.numTasks == old(team.numTasks) + 1
    {
      depFutures := CollectFutures(decl.deps);
      var more := CollectFutures(decl.noalias);
      FuturesAppend(dfMap, decl.deps, decl.noalias);
      depFutures := depFutures + more;

      numChildTasks := numChildTasks + 1;
      team.numTasks := team.numTasks + 1;

      PublishAppend(dfMap, decl.deps, decl.noalias, t);
      EnterOutputs(decl.deps, t);
      EnterOutputs(decl.noalias, t);
    }
  }

  // ------------------------------------------------ the graph of a whole program

  /** df_map of the parent after it has created the first n tasks. */
  function DfMap<A>(prog: seq<Decl<A>>, n: nat): map<A, nat>
    requires n <= |prog|
  {
    if n == 0 then map[] else Publish(DfMap(prog, n - 1), prog[n - 1].All(), n - 1)
  }

  function Elements(futures: seq<nat>): set<nat> { set f | f in futures }

  function WaitsFor<A(==)>(prog: seq<Decl<A>>, t: nat): set<nat>
    requires t < |prog|
  {
    Elements(Futures(DfMap(prog, t), prog[t].All()))
  }

  function DependGraph<A(==)>(prog: seq<Decl<A>>): Graph {
    seq(|prog|, t requires 0 <= t < |prog| => WaitsFor(prog, t))
  }

  lemma SnocEqual<T>(longer: seq<T>, shorter: seq<T>, last: T)
    requires |longer| == |shorter| + 1 && longer[|shorter|] == last
    requires forall i | 0 <= i < |shorter| :: longer[i] == shorter[i]
    ensures longer == shorter + [last]
  {
  }

  lemma GraphAt<A>(prog: seq<Decl<A>>, t: nat)
    requires t < |prog|
    ensures |DependGraph(prog)| == |prog| && DependGraph(prog)[t] == WaitsFor(prog, t)
  {
  }

  /** Creating more tasks does not change what the earlier ones wait for. */
  lemma {:induction false} DfMapOfPrefix<A>(prog: seq<Decl<A>>, more: seq<Decl<A>>, n: nat)
    requires n <= |prog|
    ensures DfMap(prog + more, n) == DfMap(prog, n)
  {
    if n > 0 { DfMapOfPrefix(prog, more, n - 1); }
  }

  lemma WaitsForOfPrefix<A>(prog: seq<Decl<A>>, d: Decl<A>, t: nat)
    requires t < |prog|
    ensures WaitsFor(prog + [d], t) == WaitsFor(prog, t)
  {
    DfMapOfPrefix(prog, [d], t);
  }

  lemma DfMapGrows<A>(prog: seq<Decl<A>>, d: Decl<A>)
    ensures DfMap(prog + [d], |prog|) == DfMap(prog, |prog|)
    ensures DfMap(prog + [d], |prog| + 1) == Publish(DfMap(prog, |prog|), d.All(), |prog|)
  {
    DfMapOfPrefix(prog, [d], |prog|);
  }

  lemma DependGraphGrows<A>(prog: seq<Decl<A>>, d: Decl<A>)
    ensures DependGraph(prog + [d]) == DependGraph(prog) + [Elements(Futures(DfMap(prog, |prog|), d.All()))]
  {
    var prog' := prog + [d];
    forall t | 0 <= t < |prog| ensures DependGraph(prog')[t] == DependGraph(prog)[t] {
      GraphAt(prog', t);
      GraphAt(prog, t);
      WaitsForOfPrefix(prog, d, t);
    }
    GraphAt(prog', |prog|);
    DfMapGrows(prog, d);
    SnocEqual(DependGraph(prog'), DependGraph(prog), WaitsFor(prog', |prog|));
  }

  lemma GraphLength<A>(prog: seq<Decl<A>>)
    ensures |DependGraph(prog)| == |prog|
  {
  }

  /** The parent has created the tasks of prog, and g holds the futures each of them waits for. */
  ghost predicate Submitted<A>(parent: TaskData<A>, prog: seq<Decl<A>>, g: Graph)
    reads parent
  {
    parent.dfMap == DfMap(prog, |prog|) && g == DependGraph(prog)
  }

  /** Creates one more task; its future is named by its place in the program. */
  method Submit<A(==)>(parent: TaskData<A>, team: Team, decl: Decl<A>, ghost prog: seq<Decl<A>>, g: Graph)
    returns (g': Graph)
    requires team.numThreads > 1 && Submitted(parent, prog, g)
    modifies parent, team
    ensures Submitted(parent, prog + [decl], g')
  {
    GraphLength(prog);
    var futures := parent.CreateDfTask(team, |g|, decl);
    DependGraphGrows(prog, decl);
    DfMapGrows(prog, decl);
    g' := g + [Elements(futures)];
  }

  /** df_map holds, for every address some earlier task writes, the last such task. */
  lemma {:induction false} DfMapIsLastWriter<A>(prog: seq<Decl<A>>, n: nat, a: A)
    requires n <= |prog|
    ensures a in DfMap(prog, n) <==> exists i :: 0 <= i < n && prog[i].Writes(a)
    ensures a in DfMap(prog, n) ==> IsLastWriter(prog, DfMap(prog, n)[a], n, a)
  {
    if n > 0 {
      DfMapIsLastWriter(prog, n - 1, a);
      PublishMeaning(DfMap(prog, n - 1), prog[n - 1].All(), n - 1, a);
    }
  }

  /** Task w writes a, and no task created after w and before n does. */
  ghost predicate IsLastWriter<A>(prog: seq<Decl<A>>, w: nat, n: nat, a: A)
    requires n <= |prog|
  {
    w < n && prog[w].Writes(a) && forall i | w < i < n :: !prog[i].Writes(a)
  }

  /** A task waits for exactly the last earlier writers of the addresses it names. */
  lemma WaitsForLastWriters<A(!new)>(prog: seq<Decl<A>>, t: nat, p: nat)
    requires t < |prog|
    ensures p in WaitsFor(prog, t) <==> exists a :: prog[t].Names(a) && IsLastWriter(prog, p, t, a)
  {
    var ds := prog[t].All();
    FuturesMeaning(DfMap(prog, t), ds, p);
    if p in WaitsFor(prog, t) {
      var k :| 0 <= k < |ds| && ds[k].addr in DfMap(prog, t) && DfMap(prog, t)[ds[k].addr] == p;
      DfMapIsLastWriter(prog, t, ds[k].addr);
      assert prog[t].Names(ds[k].addr);
    }
    if a :| prog[t].Names(a) && IsLastWriter(prog, p, t, a) {
      DfMapIsLastWriter(prog, t, a);
      var k :| 0 <= k < |ds| && ds[k].addr == a;
    }
  }

  lemma DependGraphWellFormed<A(!new)>(prog: seq<Decl<A>>)
    ensures WellFormed(DependGraph(prog))
  {
    var g := DependGraph(prog);
    forall t, p | 0 <= t < |g| && p in g[t] ensures p < t {
      WaitsForLastWriters(prog, t, p);
    }
  }

  /** Read-after-write and write-after-write pairs are always joined by a path. */
  lemma {:induction false} WriterPrecedesUser<A(!new)>(prog: seq<Decl<A>>, i: nat, j: nat, a: A)
    requires i < j < |prog| && prog[i].Writes(a) && prog[j].Names(a)
    requires WellFormed(DependGraph(prog))
    ensures Path(DependGraph(prog), i, j)
    decreases j
  {
    DfMapIsLastWriter(prog, j, a);
    var w := DfMap(prog, j)[a];
    WaitsForLastWriters(prog, j, w);
    if w != i {
      WriterPrecedesUser(prog, i, w, a);
      assert Path(DependGraph(prog), i, w);
    }
  }

  // ------------------------------------------------ determinacy of declared programs

  /** A location is an address that `depend` clauses can name, or private to one task. */
  datatype Loc<A> = Shared(addr: A) | Own(task: nat, slot: nat)

  ghost predicate MayRead<A>(prog: seq<Decl<A>>, t: nat, l: Loc<A>)
    requires t < |prog|
  {
    match l case Shared(a) => prog[t].Names(a) case Own(u, _) => u == t
  }

  ghost predicate MayWrite<A>(prog: seq<Decl<A>>, t: nat, l: Loc<A>)
    requires t < |prog|
  {
    match l case Shared(a) => prog[t].Writes(a) case Own(u, _) => u == t
  }

  /** Every task body keeps to the addresses its `depend` clauses declare. */
  ghost predicate Conforms<A, V>(prog: seq<Decl<A>>, bodies: Bodies<Loc<A>, V>) {
    && |bodies| == |prog|
    && forall t, k | 0 <= t < |prog| && 0 <= k < |bodies[t]| ::
         && MayWrite(prog, t, bodies[t][k].target)
         && forall l | l in bodies[t][k].uses :: MayRead(prog, t, l)
  }

  /** Every reader of an address is joined by a path to every later writer of it. */
  ghost predicate ReadersOrdered<A(!new)>(prog: seq<Decl<A>>)
    requires WellFormed(DependGraph(prog))
  {
    forall r, w, a | 0 <= r < w < |prog| && prog[r].Names(a) && prog[w].Writes(a) ::
      Path(DependGraph(prog), r, w)
  }

  lemma DeclaredConflictsOrdered<A(!new), V>(prog: seq<Decl<A>>, bodies: Bodies<Loc<A>, V>)
    requires WellFormed(DependGraph(prog)) && ReadersOrdered(prog) && Conforms(prog, bodies)
    ensures ConflictsOrdered(DependGraph(prog), bodies)
  {
    var g := DependGraph(prog);
    forall t, u | 0 <= t < u < |bodies| && !IndependentBodies(bodies[t], bodies[u])
      ensures Path(g, t, u)
    {
      var i, j :| 0 <= i < |bodies[t]| && 0 <= j < |bodies[u]| && !Independent(bodies[t][i], bodies[u][j]);
      var x, y := bodies[t][i], bodies[u][j];
      if x.target == y.target || x.target in y.uses {
        var a := x.target.addr;
        var k :| 0 <= k < |prog[t].All()| && prog[t].All()[k].addr == a && prog[t].All()[k].isOut;
        assert prog[u].Names(a);
        WriterPrecedesUser(prog, t, u, a);
      } else {
        assert prog[t].Names(y.target.addr);
      }
    }
  }

  /** Every schedule the futures allow, of every conforming program text, ends with the
      store of the sequential run. */
  ghost predicate Determinate<A(!new)>(prog: seq<Decl<A>>)
    requires WellFormed(DependGraph(prog))
  {
    forall bodies: Bodies<Loc<A>, int>, s: Store<Loc<A>, int>, sched: seq<nat>, end: State<Loc<A>, int> |
      && Conforms(prog, bodies) && |end.pc| == |bodies|
      && Reaches(DependGraph(prog), bodies, Initial(bodies, s), sched, end) && AllFinished(bodies, end.pc) ::
      end.store == Sequential(bodies, s)
  }

  /** Bodies in which task r copies address a to its own memory and task w overwrites a. */
  function Probe<A(==)>(prog: seq<Decl<A>>, r: nat, w: nat, a: A): Bodies<Loc<A>, int> {
    var copy := Action({Shared(a)}, Own(r, 0), m => if Shared(a) in m then m[Shared(a)] else 0);
    var overwrite := Action({}, Shared(a), m => 1);
    seq(|prog|, t => if t == r then [copy] else if t == w then [overwrite] else [])
  }

  lemma {:induction false} ProbeInOrder<A>(prog: seq<Decl<A>>, r: nat, w: nat, a: A, s: Store<Loc<A>, int>, n: nat)
    requires r < w < |prog| && n <= |prog| && s == map[Shared(a) := 0]
    ensures Own(r, 0) in Sequential(Probe(prog, r, w, a)[..n], s) <==> n > r
    ensures n > r ==> Sequential(Probe(prog, r, w, a)[..n], s)[Own(r, 0)] == 0
    ensures n <= r ==> Sequential(Probe(prog, r, w, a)[..n], s) == s
  {
    var bodies := Probe(prog, r, w, a);
    if n > 0 {
      ProbeInOrder(prog, r, w, a, s, n - 1);
      assert bodies[..n][..n - 1] == bodies[..n - 1];
      OneAction(bodies[n - 1], Sequential(bodies[..n - 1], s));
    }
  }

  lemma OneAction<L, V>(body: seq<Action<L, V>>, s: Store<L, V>)
    ensures body == [] ==> RunBody(body, s) == s
    ensures |body| == 1 ==> RunBody(body, s) == Exec(body[0], s)
  {
    if |body| == 1 { assert RunBody(body[..0], s) == s; }
  }

  /** If `which` holds exactly one of r and w, running it performs just that one's action. */
  lemma {:induction false} ProbeHalf<A>(prog: seq<Decl<A>>, r: nat, w: nat, a: A, which: set<nat>, t: nat,
                                        s: Store<Loc<A>, int>, n: nat)
    requires r < w < |prog| && n <= |prog|
    requires t in {r, w} && t in which && (r !in which || w !in which)
    ensures RunOnly(Probe(prog, r, w, a), which, n, s) ==
            if n > t then RunBody(Probe(prog, r, w, a)[t], s) else s
  {
    if n > 0 {
      ProbeHalf(prog, r, w, a, which, t, s, n - 1);
    }
  }

  function After(g: Graph, r: nat): set<nat>
    requires WellFormed(g)
  {
    set t: nat | t < |g| && (t == r || Path(g, r, t))
  }

  function NotAfter(g: Graph, r: nat): set<nat>
    requires WellFormed(g)
  {
    set t: nat | t < |g| && !(t == r || Path(g, r, t))
  }

  /** Task r and everything that waits for it can be put off until all other tasks are done. */
  lemma DelayTask<L, V>(g: Graph, bodies: Bodies<L, V>, s: Store<L, V>, r: nat)
    returns (sched: seq<nat>, end: State<L, V>)
    requires WellFormed(g) && |g| == |bodies| && r < |g|
    ensures Reaches(g, bodies, Initial(bodies, s), sched, end)
    ensures |end.pc| == |bodies| && AllFinished(bodies, end.pc)
    ensures end.store == RunOnly(bodies, After(g, r), |g|, RunOnly(bodies, NotAfter(g, r), |g|, s))
  {
    var first, mid := RunSet(g, bodies, Initial(bodies, s), NotAfter(g, r), |bodies|);
    forall t, p | t in After(g, r) && t < |bodies| && p in g[t]
      ensures p in After(g, r) || Finished(bodies, mid.pc, p)
    {
      assert p in After(g, r) || p in NotAfter(g, r);
    }
    var second;
    second, end := RunSet(g, bodies, mid, After(g, r), |bodies|);
    ReachesTrans(g, bodies, Initial(bodies, s), first, mid, second, end);
    sched := first + second;
  }

  lemma ProbeConforms<A>(prog: seq<Decl<A>>, r: nat, w: nat, a: A)
    requires r < w < |prog| && prog[r].Names(a) && prog[w].Writes(a)
    ensures Conforms(prog, Probe(prog, r, w, a))
  {
  }

  /** Running w before r lets r see what w wrote. */
  lemma ProbeDelayed<A>(prog: seq<Decl<A>>, g: Graph, r: nat, w: nat, a: A, s: Store<Loc<A>, int>)
    requires WellFormed(g) && |g| == |prog| && r < w < |prog| && !Path(g, r, w)
    ensures var bodies := Probe(prog, r, w, a);
            var end := RunOnly(bodies, After(g, r), |g|, RunOnly(bodies, NotAfter(g, r), |g|, s));
            Own(r, 0) in end && end[Own(r, 0)] == 1
  {
    var bodies := Probe(prog, r, w, a);
    ProbeHalf(prog, r, w, a, NotAfter(g, r), w, s, |g|);
    OneAction(bodies[w], s);
    var mid := RunBody(bodies[w], s);
    ProbeHalf(prog, r, w, a, After(g, r), r, mid, |g|);
    OneAction(bodies[r], mid);
    assert mid[Shared(a)] == 1;
  }

  /** If no path joins reader r to the later writer w, then some conforming program text has a
      legal schedule whose result differs from the sequential one: w runs first. */
  lemma UnorderedReaderDiverges<A(!new)>(prog: seq<Decl<A>>, r: nat, w: nat, a: A)
    requires WellFormed(DependGraph(prog)) && r < w < |prog|
    requires prog[r].Names(a) && prog[w].Writes(a) && !Path(DependGraph(prog), r, w)
    ensures !Determinate(prog)
  {
    var g, bodies := DependGraph(prog), Probe(prog, r, w, a);
    var s: Store<Loc<A>, int> := map[Shared(a) := 0];
    var sched, end := DelayTask(g, bodies, s, r);
    ProbeDelayed(prog, g, r, w, a, s);
    ProbeInOrder(prog, r, w, a, s, |bodies|);
    assert bodies[..|bodies|] == bodies;
    ProbeConforms(prog, r, w, a);
  }

  /** Exactly what `depend` guarantees here: the edges the runtime adds make every conforming
      program determinate if and only if they join each reader to every later writer. */
  lemma DeterminateIffReadersOrdered<A(!new)>(prog: seq<Decl<A>>)
    ensures WellFormed(DependGraph(prog))
    ensures Determinate(prog) <==> ReadersOrdered(prog)
  {
    DependGraphWellFormed(prog);
    var g := DependGraph(prog);
    if ReadersOrdered(prog) {
      forall bodies: Bodies<Loc<A>, int>, s: Store<Loc<A>, int>, sched: seq<nat>, end: State<Loc<A>, int> |
        && Conforms(prog, bodies) && |end.pc| == |bodies|
        && Reaches(g, bodies, Initial(bodies, s), sched, end) && AllFinished(bodies, end.pc)
        ensures end.store == Sequential(bodies, s)
      {
        DeclaredConflictsOrdered(prog, bodies);
        Determinacy(g, bodies, s, sched, end);
      }
    } else {
      var r, w, a :| 0 <= r < w < |prog| && prog[r].Names(a) && prog[w].Writes(a) && !Path(g, r, w);
      UnorderedReaderDiverges(prog, r, w, a);
    }
  }

  /** The smallest program the standard orders and these edges do not: a task that reads x,
      then a task that writes x. */
  lemma WriteAfterReadIsNotOrdered()
    ensures var prog := [Decl([Dep(0, true, false)], []), Decl([Dep(0, false, true)], [])];
            DependGraph(prog) == [{}, {}] && WellFormed(DependGraph(prog)) && !Determinate(prog)
  {
    var reader: Decl<int>, writer: Decl<int> := Decl([Dep(0, true, false)], []), Decl([Dep(0, false, true)], []);
    var prog := [reader, writer];
    assert reader.All()[0].addr == 0 && writer.All()[0].addr == 0;
    forall p ensures p !in WaitsFor(prog, 0) && p !in WaitsFor(prog, 1) {
      WaitsForLastWriters(prog, 0, p);
      WaitsForLastWriters(prog, 1, p);
    }
    assert WaitsFor(prog, 0) == {} && WaitsFor(prog, 1) == {};
    assert DependGraph(prog) == [{}, {}];
    DeterminateIffReadersOrdered(prog);
    assert reader.Names(0) && writer.Writes(0) && !Path(DependGraph(prog), 0, 1);
  }
}
