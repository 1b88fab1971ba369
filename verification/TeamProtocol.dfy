/** The life of one parallel region: implicit threads, explicit tasks that create tasks, the
    counters num_child_tasks, num_tasks and running_threads, the team barrier, and the thread that
    runs fork_worker.  Every atomic operation is one step; steps interleave freely. */
module TeamProtocol {

  /** Where an agent, that is an implicit thread or an explicit task, stands. */
  datatype Phase =
    | Pending                  // created, not yet started
    | Running                  // in user code
    | Counting                 // create_task: num_child_tasks has been increased
    | Counted                  // create_task: num_tasks has been increased as well
    | TaskWaiting              // in task_wait
    | BarrierChildren          // in barrier_wait: waiting for the children
    | BarrierTasks             // in barrier_wait: waiting for num_tasks
    | Arriving                 // in barrier_wait: about to enter the team barrier
    | Waiting(generation: int) // inside the team barrier
    | BodyDone                 // task_setup: the body has returned
    | ChildDropped             // task_setup: the parent's counter has been decreased
    | Draining                 // thread_setup: the body has returned, waiting for the children
    | Leaving                  // thread_setup: about to decrease running_threads
    | Done

  /** parent is -1 for an implicit thread. */
  datatype Agent = Agent(id: int, parent: int, phase: Phase) {
    predicate Explicit() { parent >= 0 }
  }

  /** fork_worker: waits for running_threads, then for num_tasks, then returns. */
  datatype Master = WaitsForThreads | WaitsForTasks | Returned

  /** The team and everybody who may touch it; children[i] is num_child_tasks of agent i. */
  datatype Team = Team(agents: seq<Agent>, children: seq<int>, numTasks: int, running: int, arrived: int,
                       generation: int, master: Master)

  function Start(n: nat): Team {
    Team(seq(n, i => Agent(i, -1, Running)), seq(n, i => 0), 0, n, 0, 0, WaitsForThreads)
  }

  // ------------------------------------------------ steps

  datatype Act =
    | BeginTask | CountTask | Launch | StartTask
    | BeginTaskWait | EndTaskWait
    | BeginBarrier | ChildrenDone | TasksDone | Arrive | PassBarrier
    | EndBody | DropChild | DropTask | Drained | Leave
    | ThreadsDone | Return

  predicate MasterAct(act: Act) { act.ThreadsDone? || act.Return? }

  /** The phase from which an agent performs an act. */
  function From(act: Act): Phase
    requires !MasterAct(act) && !act.PassBarrier?
  {
    match act
    case BeginTask | BeginTaskWait | BeginBarrier | EndBody => Running
    case CountTask => Counting
    case Launch => Counted
    case StartTask => Pending
    case EndTaskWait => TaskWaiting
    case ChildrenDone => BarrierChildren
    case TasksDone => BarrierTasks
    case Arrive => Arriving
    case DropChild => BodyDone
    case DropTask => ChildDropped
    case Drained => Draining
    case Leave => Leaving
  }

  /** The act is possible: the agent is at the right place and the condition it waits for holds. */
  predicate Can(s: Team, a: int, act: Act) {
    if act.ThreadsDone? then s.master.WaitsForThreads? && s.running <= 0
    else if act.Return? then s.master.WaitsForTasks? && s.numTasks <= 0
    else
      && 0 <= a < |s.agents| && |s.children| == |s.agents|
      && (if act.PassBarrier? then s.agents[a].phase.Waiting? && s.agents[a].phase.generation < s.generation
          else s.agents[a].phase == From(act))
      && (act.BeginBarrier? ==> !s.agents[a].Explicit())
      && (act.DropChild? ==> 0 <= s.agents[a].parent < |s.children|)
      && (act.EndTaskWait? || act.ChildrenDone? || act.Drained? ==> s.children[a] <= 0)
      && (act.TasksDone? ==> s.numTasks <= 0)
  }

  /** Where the agent stands afterwards. */
  function To(s: Team, a: int, act: Act): Phase
    requires 0 <= a < |s.agents| && !MasterAct(act)
  {
    match act
    case BeginTask => Counting
    case CountTask => Counted
    case Launch | StartTask | EndTaskWait | PassBarrier => Running
    case BeginTaskWait => TaskWaiting
    case BeginBarrier => BarrierChildren
    case ChildrenDone => BarrierTasks
    case TasksDone => Arriving
    case Arrive => Waiting(s.generation)
    case EndBody => if s.agents[a].Explicit() then BodyDone else Draining
    case DropChild => ChildDropped
    case DropTask => Done
    case Drained => Leaving
    case Leave => Done
  }

  function NewAgents(s: Team, a: int, act: Act): seq<Agent>
    requires 0 <= a < |s.agents| && !MasterAct(act)
  {
    s.agents[a := s.agents[a].(phase := To(s, a, act))] + if act.Launch? then [Agent(|s.agents|, a, Pending)] else []
  }

  function NewChildren(s: Team, a: int, act: Act): seq<int>
    requires Can(s, a, act) && !MasterAct(act)
  {
    if act.BeginTask? then s.children[a := s.children[a] + 1]
    else if act.DropChild? then s.children[s.agents[a].parent := s.children[s.agents[a].parent] - 1]
    else if act.Launch? then s.children + [0]
    else s.children
  }

  function NewTasks(s: Team, act: Act): int {
    if act.CountTask? then s.numTasks + 1 else if act.DropTask? then s.numTasks - 1 else s.numTasks
  }

  /** One step of a team of n threads. */
  function Do(n: nat, s: Team, a: int, act: Act): Team
    requires Can(s, a, act)
  {
    if act.ThreadsDone? then s.(master := WaitsForTasks)
    else if act.Return? then s.(master := Returned)
    else
      var released := act.Arrive? && s.arrived + 1 == n;
      Team(NewAgents(s, a, act), NewChildren(s, a, act), NewTasks(s, act),
           if act.Leave? then s.running - 1 else s.running,
           if released then 0 else if act.Arrive? then s.arrived + 1 else s.arrived,
           if released then s.generation + 1 else s.generation,
           s.master)
  }

  /** A run: who does what, in order. */
  ghost predicate Reaches(n: nat, s: Team, run: seq<(int, Act)>, s': Team)
    decreases |run|
  {
    if run == [] then s == s'
    else Can(s, run[0].0, run[0].1) && Reaches(n, Do(n, s, run[0].0, run[0].1), run[1..], s')
  }

  // ------------------------------------------------ sums over agents

  function Sum(f: Agent -> int, agents: seq<Agent>): int {
    if agents == [] then 0 else Sum(f, agents[..|agents| - 1]) + f(agents[|agents| - 1])
  }

  lemma SumSnoc(f: Agent -> int, agents: seq<Agent>, x: Agent)
    ensures Sum(f, agents + [x]) == Sum(f, agents) + f(x)
  {
    assert (agents + [x])[..|agents|] == agents;
  }

  lemma {:induction false} SumUpdate(f: Agent -> int, agents: seq<Agent>, i: nat, x: Agent)
    requires i < |agents|
    ensures Sum(f, agents[i := x]) == Sum(f, agents) - f(agents[i]) + f(x)
  {
    var m := |agents| - 1;
    if i == m {
      assert agents[i := x][..m] == agents[..m];
    } else {
      SumUpdate(f, agents[..m], i, x);
      assert agents[i := x][..m] == agents[..m][i := x];
    }
  }

  /** No summand is larger than the sum if none is negative. */
  lemma {:induction false} SumBounds(f: Agent -> int, agents: seq<Agent>, i: nat)
    requires (forall j | 0 <= j < |agents| :: f(agents[j]) >= 0) && i < |agents|
    ensures Sum(f, agents) >= f(agents[i]) >= 0
  {
    var m := |agents| - 1;
    if i < m {
      SumBounds(f, agents[..m], i);
    } else {
      SumNonNegative(f, agents[..m]);
    }
  }

  lemma {:induction false} SumNonNegative(f: Agent -> int, agents: seq<Agent>)
    requires forall j | 0 <= j < |agents| :: f(agents[j]) >= 0
    ensures Sum(f, agents) >= 0
  {
    if agents != [] { SumNonNegative(f, agents[..|agents| - 1]); }
  }

  /** If each of the first n agents counts 1 and the others 0, the sum is n; and the other way
      round a sum of n over summands 0 and 1 needs them all. */
  lemma {:induction false} SumFull(f: Agent -> int, agents: seq<Agent>, n: nat)
    requires n <= |agents| && forall j | 0 <= j < |agents| :: 0 <= f(agents[j]) <= if j < n then 1 else 0
    ensures Sum(f, agents) <= n
    ensures Sum(f, agents) == n <==> forall j | 0 <= j < n :: f(agents[j]) == 1
  {
    if agents != [] {
      var m := |agents| - 1;
      SumFull(f, agents[..m], if n > m then m else n);
    }
  }

  // ------------------------------------------------ what the counters count

  /** What an agent adds to num_tasks. */
  function TaskWeight(): Agent -> int {
    (x: Agent) => (if x.Explicit() && !x.phase.Done? then 1 else 0) + (if x.phase.Counted? then 1 else 0)
  }

  /** What an agent adds to num_child_tasks of agent p. */
  function ChildWeight(p: int): Agent -> int {
    (x: Agent) =>
      (if x.Explicit() && x.parent == p && !x.phase.ChildDropped? && !x.phase.Done? then 1 else 0)
      + (if x.id == p && (x.phase.Counting? || x.phase.Counted?) then 1 else 0)
  }

  function RunWeight(): Agent -> int {
    (x: Agent) => if !x.Explicit() && !x.phase.Done? then 1 else 0
  }

  function ArrivedWeight(generation: int): Agent -> int {
    (x: Agent) => if x.phase == Waiting(generation) then 1 else 0
  }

  predicate PhaseFits(x: Agent) {
    if x.Explicit()
    then !x.phase.BarrierChildren? && !x.phase.BarrierTasks? && !x.phase.Arriving? && !x.phase.Waiting?
         && !x.phase.Draining? && !x.phase.Leaving?
    else !x.phase.Pending? && !x.phase.BodyDone? && !x.phase.ChildDropped?
  }

  predicate Shape(n: nat, s: Team) {
    && n >= 1 && n <= |s.agents| == |s.children|
    && forall i | 0 <= i < |s.agents| ::
         && s.agents[i].id == i && (s.agents[i].Explicit() <==> i >= n) && s.agents[i].parent < i
         && PhaseFits(s.agents[i])
         && (s.agents[i].phase.Waiting? ==> s.agents[i].phase.generation <= s.generation)
  }

  ghost predicate Counters(s: Team)
    requires |s.agents| == |s.children|
  {
    && (forall p | 0 <= p < |s.agents| :: s.children[p] == Sum(ChildWeight(p), s.agents))
    && s.numTasks == Sum(TaskWeight(), s.agents)
    && s.running == Sum(RunWeight(), s.agents)
    && s.arrived == Sum(ArrivedWeight(s.generation), s.agents)
  }

  /** Every thread has seen num_tasks at zero since the barrier was last released. */
  predicate AllPast(n: nat, s: Team)
    requires n <= |s.agents|
  {
    forall i | 0 <= i < n :: s.agents[i].phase == Arriving || s.agents[i].phase == Waiting(s.generation)
  }

  predicate Gates(n: nat, s: Team)
    requires n <= |s.agents|
  {
    && s.arrived < n
    && (AllPast(n, s) ==> s.numTasks == 0)
    && (!s.master.WaitsForThreads? ==> s.running == 0)
    && (s.master.Returned? ==> s.numTasks == 0)
  }

  ghost predicate Inv(n: nat, s: Team) {
    Shape(n, s) && Counters(s) && Gates(n, s)
  }

  // ------------------------------------------------ consequences of the counters

  lemma TasksCounted(n: nat, s: Team, i: nat)
    requires Shape(n, s) && Counters(s) && i < |s.agents|
    ensures s.numTasks >= 0
    ensures s.numTasks == 0 ==> !s.agents[i].phase.Counted? && (i >= n ==> s.agents[i].phase.Done?)
  {
    SumBounds(TaskWeight(), s.agents, i);
  }

  lemma ChildrenCounted(n: nat, s: Team, p: nat, i: nat)
    requires Shape(n, s) && Counters(s) && i < |s.agents| && p < |s.agents|
    ensures s.children[p] >= 0
    ensures s.children[p] == 0 && s.agents[i].parent == p ==> s.agents[i].phase.ChildDropped? || s.agents[i].phase.Done?
  {
    SumBounds(ChildWeight(p), s.agents, i);
  }

  lemma ThreadsCounted(n: nat, s: Team, i: nat)
    requires Shape(n, s) && Counters(s) && i < n
    ensures s.running >= 0
    ensures s.running == 0 ==> s.agents[i].phase.Done?
  {
    SumBounds(RunWeight(), s.agents, i);
  }

  // ------------------------------------------------ the invariant is kept

  /** A step changes each sum by what it does to the weights of the agent that moves and of the
      one that is created. */
  lemma StepSum(s: Team, a: int, act: Act, f: Agent -> int)
    requires 0 <= a < |s.agents| && !MasterAct(act)
    ensures Sum(f, NewAgents(s, a, act)) ==
            Sum(f, s.agents) - f(s.agents[a]) + f(s.agents[a].(phase := To(s, a, act))) + if act.Launch?
            then f(Agent(|s.agents|, a, Pending)) else 0
  {
    hide To, Sum;
    var x := s.agents[a].(phase := To(s, a, act));
    SumUpdate(f, s.agents, a, x);
    if act.Launch? { SumSnoc(f, s.agents[a := x], Agent(|s.agents|, a, Pending)); }
    else { assert NewAgents(s, a, act) == s.agents[a := x]; }
  }

  lemma StepKeepsShape(n: nat, s: Team, a: int, act: Act)
    requires Shape(n, s) && Can(s, a, act)
    ensures Shape(n, Do(n, s, a, act))
  {
    if !MasterAct(act) {
      MoverFits(s, a, act);
    }
  }

  lemma MoverFits(s: Team, a: int, act: Act)
    requires 0 <= a < |s.agents| && Can(s, a, act) && !MasterAct(act) && PhaseFits(s.agents[a])
    ensures PhaseFits(s.agents[a].(phase := To(s, a, act)))
    ensures To(s, a, act).Waiting? ==> To(s, a, act).generation == s.generation
  {
  }

  lemma StepKeepsChildren(n: nat, s: Team, a: int, act: Act, p: nat)
    requires Shape(n, s) && Counters(s) && Can(s, a, act) && p < |s.agents|
    ensures var s' := Do(n, s, a, act);
            p < |s'.children| && s'.children[p] == Sum(ChildWeight(p), s'.agents)
  {
    hide Sum;
    if !MasterAct(act) { StepSum(s, a, act, ChildWeight(p)); }
  }

  /** A new agent has no children. */
  lemma NewAgentChildless(n: nat, s: Team, a: int)
    requires Shape(n, s) && Can(s, a, Launch)
    ensures Sum(ChildWeight(|s.agents|), NewAgents(s, a, Launch)) == 0
  {
    hide Sum;
    var f := ChildWeight(|s.agents|);
    StepSum(s, a, Launch, f);
    SumZero(f, s.agents);
  }

  lemma {:induction false} SumZero(f: Agent -> int, agents: seq<Agent>)
    requires forall j | 0 <= j < |agents| :: f(agents[j]) == 0
    ensures Sum(f, agents) == 0
  {
    if agents != [] { SumZero(f, agents[..|agents| - 1]); }
  }

  lemma StepKeepsTasks(n: nat, s: Team, a: int, act: Act)
    requires Shape(n, s) && Counters(s) && Can(s, a, act)
    ensures Do(n, s, a, act).numTasks == Sum(TaskWeight(), Do(n, s, a, act).agents)
    ensures Do(n, s, a, act).running == Sum(RunWeight(), Do(n, s, a, act).agents)
  {
    hide Sum;
    if !MasterAct(act) {
      StepSum(s, a, act, TaskWeight());
      StepSum(s, a, act, RunWeight());
    }
  }

  lemma StepKeepsArrived(n: nat, s: Team, a: int, act: Act)
    requires Shape(n, s) && Counters(s) && Can(s, a, act)
    ensures var s' := Do(n, s, a, act);
            s'.arrived == Sum(ArrivedWeight(s'.generation), s'.agents)
  {
    hide Sum;
    if !MasterAct(act) {
      StepSum(s, a, act, ArrivedWeight(s.generation));
      if act.Arrive? && s.arrived + 1 == n {
        StepKeepsShape(n, s, a, act);
        var s' := Do(n, s, a, act);
        forall j | 0 <= j < |s'.agents| ensures ArrivedWeight(s'.generation)(s'.agents[j]) == 0 {
          if j != a { assert s'.agents[j] == s.agents[j]; }
        }
        SumZero(ArrivedWeight(s'.generation), s'.agents);
      }
    }
  }

  lemma StepKeepsCounters(n: nat, s: Team, a: int, act: Act)
    requires Shape(n, s) && Counters(s) && Can(s, a, act)
    ensures |Do(n, s, a, act).agents| == |Do(n, s, a, act).children| && Counters(Do(n, s, a, act))
  {
    hide Sum, To, TaskWeight, RunWeight, ArrivedWeight, ChildWeight;
    var s' := Do(n, s, a, act);
    StepKeepsTasks(n, s, a, act);
    StepKeepsArrived(n, s, a, act);
    forall p: nat | p < |s'.agents|
      ensures |s'.agents| == |s'.children| && s'.children[p] == Sum(ChildWeight(p), s'.agents) {
      if p < |s.agents| {
        StepKeepsChildren(n, s, a, act, p);
      } else {
        NewAgentChildless(n, s, a);
      }
    }
  }

  /** Whoever can still change num_tasks is counted in it, or is a thread that has not passed. */
  lemma OnlyCountedTasksTouch(n: nat, s: Team, a: int, act: Act)
    requires Shape(n, s) && Counters(s) && Can(s, a, act) && (act.CountTask? || act.DropTask?) && a >= n
    ensures s.numTasks > 0
  {
    TasksCounted(n, s, a);
  }

  lemma StepKeepsGates(n: nat, s: Team, a: int, act: Act)
    requires Inv(n, s) && Can(s, a, act)
    ensures n <= |Do(n, s, a, act).agents| && Gates(n, Do(n, s, a, act))
  {
    hide Counters;
    TasksCounted(n, s, 0);
    ThreadsCounted(n, s, 0);
    if (act.CountTask? || act.DropTask?) && a >= n { OnlyCountedTasksTouch(n, s, a, act); }
    if !MasterAct(act) && a < n { ThreadsCounted(n, s, a); }
    var s' := Do(n, s, a, act);
    if AllPast(n, s') && !MasterAct(act) {
      PastBefore(n, s, a, act);
    }
  }

  /** All threads have passed after a step only if they had before, or the step is the last of
      them seeing num_tasks at zero. */
  lemma PastBefore(n: nat, s: Team, a: int, act: Act)
    requires Shape(n, s) && Can(s, a, act) && !MasterAct(act) && AllPast(n, Do(n, s, a, act))
    ensures act.TasksDone? || AllPast(n, s)
    ensures a < n ==> act.TasksDone? || act.Arrive?
    ensures !(act.Arrive? && s.arrived + 1 == n)
  {
    var s' := Do(n, s, a, act);
    assert s'.agents[a].phase == To(s, a, act);
    assert forall i | 0 <= i < n && i != a :: s.agents[i] == s'.agents[i];
  }

  lemma StepKeepsInv(n: nat, s: Team, a: int, act: Act)
    requires Inv(n, s) && Can(s, a, act)
    ensures Inv(n, Do(n, s, a, act))
  {
    hide Shape, Counters, Gates;
    StepKeepsShape(n, s, a, act);
    StepKeepsCounters(n, s, a, act);
    StepKeepsGates(n, s, a, act);
  }

  lemma StartHasInv(n: nat)
    requires n >= 2
    ensures Inv(n, Start(n))
  {
    var s := Start(n);
    forall p | 0 <= p < n ensures s.children[p] == Sum(ChildWeight(p), s.agents) {
      SumZero(ChildWeight(p), s.agents);
    }
    SumZero(TaskWeight(), s.agents);
    SumZero(ArrivedWeight(0), s.agents);
    SumFull(RunWeight(), s.agents, n);
    assert s.agents[0].phase == Running;
  }

  /** The counters bound what is outstanding in every state of every run. */
  lemma {:induction false} RunKeepsInv(n: nat, s: Team, run: seq<(int, Act)>, s': Team)
    requires Inv(n, s) && Reaches(n, s, run, s')
    ensures Inv(n, s')
    decreases |run|
  {
    hide Inv, Can, Do;
    if run != [] {
      StepKeepsInv(n, s, run[0].0, run[0].1);
      RunKeepsInv(n, Do(n, s, run[0].0, run[0].1), run[1..], s');
    }
  }

  // ------------------------------------------------ the guarantees

  /** The body of every task that agent p has created has returned. */
  ghost predicate ChildrenFinished(s: Team, p: int) {
    forall i | 0 <= i < |s.agents| && s.agents[i].parent == p ::
      s.agents[i].phase.ChildDropped? || s.agents[i].phase.Done?
  }

  /** No explicit task is unfinished, and nobody is about to create one. */
  ghost predicate NoTasks(s: Team) {
    forall i | 0 <= i < |s.agents| ::
      !s.agents[i].phase.Counting? && !s.agents[i].phase.Counted?
      && (s.agents[i].Explicit() ==> s.agents[i].phase.Done?)
  }

  /** task_wait returns only when all children are done, in a thread and in a task alike; so does
      the wait at the end of thread_setup. */
  lemma TaskWaitIsSafe(n: nat, run: seq<(int, Act)>, s: Team, a: int, act: Act)
    requires n >= 2 && Reaches(n, Start(n), run, s) && Can(s, a, act)
             && (act.EndTaskWait? || act.ChildrenDone? || act.Drained?)
    ensures ChildrenFinished(s, a)
  {
    hide Counters;
    StartHasInv(n);
    RunKeepsInv(n, Start(n), run, s);
    forall i | 0 <= i < |s.agents| && s.agents[i].parent == a
      ensures s.agents[i].phase.ChildDropped? || s.agents[i].phase.Done? {
      ChildrenCounted(n, s, a, i);
    }
  }

  /** The team barrier is released only when no explicit task is outstanding anywhere in the team,
      although tasks may create tasks and each thread has looked at num_tasks at its own time. */
  lemma BarrierIsSafe(n: nat, run: seq<(int, Act)>, s: Team, a: int)
    requires n >= 2 && Reaches(n, Start(n), run, s) && Can(s, a, Arrive)
             && Do(n, s, a, Arrive).generation != s.generation
    ensures s.numTasks == 0 && NoTasks(s)
    ensures n <= |s.agents| && forall i | 0 <= i < n :: i == a || s.agents[i].phase == Waiting(s.generation)
  {
    hide Counters, Sum;
    StartHasInv(n);
    RunKeepsInv(n, Start(n), run, s);
    AllOthersWait(n, s, a);
    NothingOutstanding(n, s);
  }

  lemma AllOthersWait(n: nat, s: Team, a: int)
    requires Inv(n, s) && Can(s, a, Arrive) && s.arrived + 1 == n
    ensures a < n && AllPast(n, s) && forall i | 0 <= i < n :: i == a || s.agents[i].phase == Waiting(s.generation)
  {
    hide Sum;
    var f := ArrivedWeight(s.generation);
    var x := s.agents[a].(phase := Waiting(s.generation));
    SumUpdate(f, s.agents, a, x);
    var moved := s.agents[a := x];
    SumFull(f, moved, n);
    forall i | 0 <= i < n ensures i == a || s.agents[i].phase == Waiting(s.generation) {
      assert f(moved[i]) == 1;
    }
  }

  lemma NothingOutstanding(n: nat, s: Team)
    requires Shape(n, s) && Counters(s) && s.numTasks == 0 && forall i | 0 <= i < n :: !s.agents[i].phase.Counting?
    ensures NoTasks(s)
  {
    hide Counters;
    forall i | 0 <= i < |s.agents|
      ensures !s.agents[i].phase.Counting? && !s.agents[i].phase.Counted?
              && (s.agents[i].Explicit() ==> s.agents[i].phase.Done?)
    {
      TasksCounted(n, s, i);
    }
  }

  /** Once fork_worker has returned, every thread and every task is done, and no step of any of
      them is possible any more: nobody touches the team again. */
  lemma ForkIsSafe(n: nat, run: seq<(int, Act)>, s: Team, a: int, act: Act)
    requires n >= 2 && Reaches(n, Start(n), run, s) && s.master.Returned?
    ensures forall i | 0 <= i < |s.agents| :: s.agents[i].phase.Done?
    ensures !Can(s, a, act)
  {
    hide Counters;
    StartHasInv(n);
    RunKeepsInv(n, Start(n), run, s);
    forall i | 0 <= i < |s.agents| ensures s.agents[i].phase.Done? {
      if i < n { ThreadsCounted(n, s, i); } else { TasksCounted(n, s, i); }
    }
  }

  lemma {:induction false} Extend(n: nat, s: Team, run: seq<(int, Act)>, mid: Team, a: int, act: Act)
    requires Reaches(n, s, run, mid) && Can(mid, a, act)
    ensures Reaches(n, s, run + [(a, act)], Do(n, mid, a, act))
    decreases |run|
  {
    hide Can, Do;
    var longer := run + [(a, act)];
    if run == [] {
      assert longer == [(a, act)] && longer[1..] == [];
    } else {
      assert longer[0] == run[0] && longer[1..] == run[1..] + [(a, act)];
      Extend(n, Do(n, s, run[0].0, run[0].1), run[1..], mid, a, act);
    }
  }

  /** A thread or a task without unfinished children passes task_wait and is back in user code:
      nothing else has changed. */
  lemma WaitAndGoOn(n: nat, s0: Team, run: seq<(int, Act)>, s: Team, a: nat) returns (run': seq<(int, Act)>)
    requires Reaches(n, s0, run, s) && a < |s.agents| == |s.children|
    requires s.agents[a].phase == Running && s.children[a] <= 0
    ensures Reaches(n, s0, run', s) && |run'| == |run| + 2
    ensures run'[|run|] == (a, BeginTaskWait) && run'[|run| + 1] == (a, EndTaskWait)
  {
    hide Reaches;
    Extend(n, s0, run, s, a, BeginTaskWait);
    var s1 := Do(n, s, a, BeginTaskWait);
    Extend(n, s0, run + [(a, BeginTaskWait)], s1, a, EndTaskWait);
    run' := run + [(a, BeginTaskWait)] + [(a, EndTaskWait)];
    assert Do(n, s1, a, EndTaskWait) == s by {
      assert Do(n, s1, a, EndTaskWait).agents == s.agents;
    }
  }

  /** The first k agents in the given phase. */
  function InPhase(agents: seq<Agent>, k: nat, phase: Phase): (r: seq<Agent>)
    requires k <= |agents|
    ensures |r| == |agents|
  {
    seq(|agents|, i requires 0 <= i < |agents| => if i < k then agents[i].(phase := phase) else agents[i])
  }

  lemma NextInPhase(agents: seq<Agent>, k: nat, phase: Phase)
    requires k < |agents|
    ensures InPhase(agents, k, phase)[k] == agents[k]
    ensures InPhase(agents, k, phase)[k := agents[k].(phase := phase)] == InPhase(agents, k + 1, phase)
  {
  }

  /** Thread k comes to the team barrier, behind k others. */
  lemma ComesToBarrier(n: nat, s0: Team, run: seq<(int, Act)>, s: Team, k: nat)
    returns (run': seq<(int, Act)>, s': Team)
    requires Reaches(n, s0, run, s) && k < n <= |s.agents| == |s.children| && !s.agents[k].Explicit()
    requires s.agents[k].phase == Running && s.children[k] <= 0 && s.numTasks <= 0 && s.arrived == k
    ensures Reaches(n, s0, run', s')
    ensures s' == s.(agents := s.agents[k := s.agents[k].(phase := Waiting(s.generation))],
                  arrived := if k + 1 == n then 0 else k + 1,
                  generation := if k + 1 == n then s.generation + 1 else s.generation)
  {
    hide Reaches;
    Extend(n, s0, run, s, k, BeginBarrier);
    var s1, run1 := Do(n, s, k, BeginBarrier), run + [(k as int, BeginBarrier)];
    Extend(n, s0, run1, s1, k, ChildrenDone);
    var s2, run2 := Do(n, s1, k, ChildrenDone), run1 + [(k as int, ChildrenDone)];
    Extend(n, s0, run2, s2, k, TasksDone);
    var s3, run3 := Do(n, s2, k, TasksDone), run2 + [(k as int, TasksDone)];
    Extend(n, s0, run3, s3, k, Arrive);
    run', s' := run3 + [(k as int, Arrive)], Do(n, s3, k, Arrive);
    assert s'.agents == s.agents[k := s.agents[k].(phase := Waiting(s.generation))];
  }

  /** All threads in user code, without unfinished children. */
  ghost predicate ReadyForBarrier(n: nat, s: Team) {
    && 1 <= n <= |s.agents| == |s.children| && s.numTasks <= 0
    && forall i | 0 <= i < n :: s.agents[i].phase == Running && !s.agents[i].Explicit() && s.children[i] <= 0
  }

  lemma {:induction false} AllCome(n: nat, s0: Team, run: seq<(int, Act)>, s: Team, k: nat)
    returns (run': seq<(int, Act)>, s': Team)
    requires Reaches(n, s0, run, s) && ReadyForBarrier(n, s) && s.arrived == 0 && k <= n
    ensures Reaches(n, s0, run', s')
    ensures s' == s.(agents := InPhase(s.agents, k, Waiting(s.generation)), arrived := if k == n then 0 else k,
                  generation := if k == n then s.generation + 1 else s.generation)
  {
    hide Reaches;
    if k == 0 {
      run', s' := run, s;
      assert InPhase(s.agents, 0, Waiting(s.generation)) == s.agents;
    } else {
      run', s' := AllCome(n, s0, run, s, k - 1);
      NextInPhase(s.agents, k - 1, Waiting(s.generation));
      run', s' := ComesToBarrier(n, s0, run', s', k - 1);
    }
  }

  lemma {:induction false} AllPass(n: nat, s0: Team, run: seq<(int, Act)>, s: Team, g: int, k: nat)
    returns (run': seq<(int, Act)>, s': Team)
    requires Reaches(n, s0, run, s) && k <= n <= |s.agents| == |s.children| && g < s.generation
    requires forall i | 0 <= i < n :: s.agents[i].phase == Waiting(g)
    ensures Reaches(n, s0, run', s') && s' == s.(agents := InPhase(s.agents, k, Running))
  {
    hide Reaches;
    if k == 0 {
      run', s' := run, s;
      assert InPhase(s.agents, 0, Running) == s.agents;
    } else {
      run', s' := AllPass(n, s0, run, s, g, k - 1);
      NextInPhase(s.agents, k - 1, Running);
      Extend(n, s0, run', s', k - 1, PassBarrier);
      run', s' := run' + [(k - 1, PassBarrier)], Do(n, s', k - 1, PassBarrier);
    }
  }

  /** All threads pass the team barrier together: all are back in user code, the barrier is empty and
      one generation further, and nothing else has changed. */
  lemma BarrierAndGoOn(n: nat, s0: Team, run: seq<(int, Act)>, s: Team) returns (run': seq<(int, Act)>, s': Team)
    requires Reaches(n, s0, run, s) && ReadyForBarrier(n, s) && s.arrived == 0
    ensures Reaches(n, s0, run', s') && s' == s.(generation := s.generation + 1)
  {
    hide Reaches;
    run', s' := AllCome(n, s0, run, s, n);
    run', s' := AllPass(n, s0, run', s', s.generation, n);
    assert s'.agents == s.agents;
  }

  /** fork_worker returns once all is done, and leaves the team as it is. */
  lemma ForkReturns(n: nat, s0: Team, run: seq<(int, Act)>, s: Team) returns (run': seq<(int, Act)>)
    requires Reaches(n, s0, run, s) && s.master.WaitsForThreads? && s.running <= 0 && s.numTasks <= 0
    ensures Reaches(n, s0, run', s.(master := Returned))
  {
    hide Reaches;
    Extend(n, s0, run, s, 0, ThreadsDone);
    Extend(n, s0, run + [(0, ThreadsDone)], Do(n, s, 0, ThreadsDone), 0, Return);
    run' := run + [(0, ThreadsDone)] + [(0, Return)];
  }

  /** A thread or a task creates a task, which starts. */
  lemma CreateAndStart(n: nat, s0: Team, run: seq<(int, Act)>, s: Team, a: nat)
    returns (run': seq<(int, Act)>, s': Team)
    requires Reaches(n, s0, run, s) && a < |s.agents| == |s.children| && s.agents[a].phase == Running
    ensures Reaches(n, s0, run', s')
    ensures s' == s.(agents := s.agents + [Agent(|s.agents|, a, Running)],
                  children := s.children[a := s.children[a] + 1] + [0], numTasks := s.numTasks + 1)
  {
    hide Reaches;
    var t := |s.agents|;
    Extend(n, s0, run, s, a, BeginTask);
    var s1 := Do(n, s, a, BeginTask);
    Extend(n, s0, run + [(a, BeginTask)], s1, a, CountTask);
    var s2 := Do(n, s1, a, CountTask);
    var run2 := run + [(a, BeginTask)] + [(a, CountTask)];
    Extend(n, s0, run2, s2, a, Launch);
    var s3 := Do(n, s2, a, Launch);
    Extend(n, s0, run2 + [(a, Launch)], s3, t, StartTask);
    run', s' := run2 + [(a, Launch)] + [(t, StartTask)], Do(n, s3, t, StartTask);
    assert s'.agents == s.agents + [Agent(t, a, Running)];
  }

  /** A thread whose children are done ends. */
  lemma EndThread(n: nat, s0: Team, run: seq<(int, Act)>, s: Team, a: nat) returns (run': seq<(int, Act)>, s': Team)
    requires Reaches(n, s0, run, s) && a < |s.agents| == |s.children| && s.agents[a].phase == Running
             && !s.agents[a].Explicit() && s.children[a] == 0
    ensures Reaches(n, s0, run', s')
    ensures s' == s.(agents := s.agents[a := s.agents[a].(phase := Done)], running := s.running - 1)
  {
    hide Reaches;
    Extend(n, s0, run, s, a, EndBody);
    var s1 := Do(n, s, a, EndBody);
    Extend(n, s0, run + [(a, EndBody)], s1, a, Drained);
    var s2 := Do(n, s1, a, Drained);
    Extend(n, s0, run + [(a, EndBody)] + [(a, Drained)], s2, a, Leave);
    run', s' := run + [(a, EndBody)] + [(a, Drained)] + [(a, Leave)], Do(n, s2, a, Leave);
    assert s'.agents == s.agents[a := s.agents[a].(phase := Done)];
  }

  /** A task ends. */
  lemma EndTask(n: nat, s0: Team, run: seq<(int, Act)>, s: Team, a: nat) returns (run': seq<(int, Act)>, s': Team)
    requires Reaches(n, s0, run, s) && a < |s.agents| == |s.children| && s.agents[a].phase == Running
             && 0 <= s.agents[a].parent < |s.children|
    ensures Reaches(n, s0, run', s')
    ensures var p := s.agents[a].parent;
            s' == s.(agents := s.agents[a := s.agents[a].(phase := Done)],
            children := s.children[p := s.children[p] - 1], numTasks := s.numTasks - 1)
  {
    hide Reaches;
    Extend(n, s0, run, s, a, EndBody);
    var s1 := Do(n, s, a, EndBody);
    Extend(n, s0, run + [(a, EndBody)], s1, a, DropChild);
    var s2 := Do(n, s1, a, DropChild);
    Extend(n, s0, run + [(a, EndBody)] + [(a, DropChild)], s2, a, DropTask);
    run', s' := run + [(a, EndBody)] + [(a, DropChild)] + [(a, DropTask)], Do(n, s2, a, DropTask);
    assert s'.agents == s.agents[a := s.agents[a].(phase := Done)];
  }

  /** fork_worker's second loop, on num_tasks, is needed: running_threads can reach zero while a
      task that was created by a task is still running. */
  lemma RunningThreadsIsNotEnough() returns (run: seq<(int, Act)>, s: Team)
    ensures Reaches(2, Start(2), run, s) && s.running == 0 && s.master.WaitsForTasks?
    ensures exists i :: 0 <= i < |s.agents| && s.agents[i].Explicit() && s.agents[i].phase.Running?
  {
    hide Reaches, Do, Can;
    var s0 := Start(2);
    run, s := [], s0;
    assert Reaches(2, s0, run, s) by { Nothing(2, s0); }
    run, s := CreateAndStart(2, s0, run, s, 0);
    run, s := CreateAndStart(2, s0, run, s, 2);
    assert s.agents[2].parent == 0 && s.agents[3].parent == 2;
    run, s := EndTask(2, s0, run, s, 2);
    run, s := EndThread(2, s0, run, s, 0);
    run, s := EndThread(2, s0, run, s, 1);
    MasterSeesThreads(2, s0, run, s);
    run, s := run + [(0, ThreadsDone)], s.(master := WaitsForTasks);
    assert s.agents[3].Explicit() && s.agents[3].phase.Running?;
  }

  lemma Nothing(n: nat, s: Team)
    ensures Reaches(n, s, [], s)
  {
  }

  lemma MasterSeesThreads(n: nat, s0: Team, run: seq<(int, Act)>, s: Team)
    requires Reaches(n, s0, run, s) && s.running == 0 && s.master.WaitsForThreads?
    ensures Reaches(n, s0, run + [(0, ThreadsDone)], s.(master := WaitsForTasks))
  {
    hide Reaches;
    Extend(n, s0, run, s, 0, ThreadsDone);
  }
}
