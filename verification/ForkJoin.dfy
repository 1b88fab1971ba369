/** Tasks created by tasks and joined by `taskwait`: programs built from single actions, sequence,
    and pairs of tasks that may interleave freely until the taskwait that waits for both. */
module ForkJoin {
  import opened TaskGraph

  datatype Prog<!L, !V> =
    | Nil
    | Act(action: Action<L, V>)
    | Then(first: Prog<L, V>, second: Prog<L, V>)
    | Both(left: Prog<L, V>, right: Prog<L, V>)

  /** The program with its tasks run at once where they are created. */
  function Meaning<L, V>(p: Prog<L, V>, s: Store<L, V>): Store<L, V> {
    match p
    case Nil => s
    case Act(a) => Exec(a, s)
    case Then(x, y) => Meaning(y, Meaning(x, s))
    case Both(x, y) => Meaning(y, Meaning(x, s))
  }

  predicate Over<L, V>(p: Prog<L, V>) {
    match p
    case Nil => true
    case Act(_) => false
    case Then(x, y) => Over(x) && Over(y)
    case Both(x, y) => Over(x) && Over(y)
  }

  /** The program may perform action a next, and p' is what remains. */
  ghost predicate Steps<L, V>(p: Prog<L, V>, a: Action<L, V>, p': Prog<L, V>) {
    match p
    case Nil => false
    case Act(x) => a == x && p' == Nil
    case Then(x, y) =>
      p'.Then? && ((Steps(x, a, p'.first) && p'.second == y) || (Over(x) && p'.first == x && Steps(y, a, p'.second)))
    case Both(x, y) =>
      p'.Both? && ((Steps(x, a, p'.left) && p'.right == y) || (p'.left == x && Steps(y, a, p'.right)))
  }

  /** A run: the actions performed, each with what remains after it. */
  ghost predicate Runs<L, V>(p: Prog<L, V>, s: Store<L, V>, run: seq<(Action<L, V>, Prog<L, V>)>, p': Prog<L, V>,
                             s': Store<L, V>)
    decreases |run|
  {
    if run == [] then p' == p && s' == s
    else Steps(p, run[0].0, run[0].1) && Runs(run[0].1, Exec(run[0].0, s), run[1..], p', s')
  }

  // ------------------------------------------------ races

  /** Action a is independent of every action of p. */
  predicate Apart<L, V>(a: Action<L, V>, p: Prog<L, V>) {
    match p
    case Nil => true
    case Act(b) => Independent(a, b)
    case Then(x, y) => Apart(a, x) && Apart(a, y)
    case Both(x, y) => Apart(a, x) && Apart(a, y)
  }

  predicate ApartProgs<L, V>(p: Prog<L, V>, q: Prog<L, V>) {
    match p
    case Nil => true
    case Act(a) => Apart(a, q)
    case Then(x, y) => ApartProgs(x, q) && ApartProgs(y, q)
    case Both(x, y) => ApartProgs(x, q) && ApartProgs(y, q)
  }

  /** Tasks that are not separated by a taskwait do not touch what the other writes. */
  predicate RaceFree<L, V>(p: Prog<L, V>) {
    match p
    case Nil => true
    case Act(_) => true
    case Then(x, y) => RaceFree(x) && RaceFree(y)
    case Both(x, y) => RaceFree(x) && RaceFree(y) && ApartProgs(x, y)
  }

  lemma {:induction false} ActionCommutes<L, V>(a: Action<L, V>, p: Prog<L, V>, s: Store<L, V>)
    requires Apart(a, p)
    ensures Exec(a, Meaning(p, s)) == Meaning(p, Exec(a, s))
  {
    match p
    case Nil =>
    case Act(b) => ExecCommutes(a, b, s);
    case Then(x, y) =>
      ActionCommutes(a, x, s);
      ActionCommutes(a, y, Meaning(x, s));
    case Both(x, y) =>
      ActionCommutes(a, x, s);
      ActionCommutes(a, y, Meaning(x, s));
  }

  /** A step of the left side leaves it apart from the right side. */
  lemma {:induction false} LeftStepApart<L, V>(p: Prog<L, V>, a: Action<L, V>, p': Prog<L, V>, q: Prog<L, V>)
    requires ApartProgs(p, q) && Steps(p, a, p')
    ensures ApartProgs(p', q)
  {
    match p
    case Act(_) =>
    case Then(x, y) =>
      if p'.second == y && Steps(x, a, p'.first) { LeftStepApart(x, a, p'.first, q); }
      else { LeftStepApart(y, a, p'.second, q); }
    case Both(x, y) =>
      if p'.right == y && Steps(x, a, p'.left) { LeftStepApart(x, a, p'.left, q); }
      else { LeftStepApart(y, a, p'.right, q); }
  }

  lemma {:induction false} ApartStep<L, V>(b: Action<L, V>, p: Prog<L, V>, a: Action<L, V>, p': Prog<L, V>)
    requires Apart(b, p) && Steps(p, a, p')
    ensures Apart(b, p') && Independent(a, b)
  {
    match p
    case Act(_) =>
    case Then(x, y) =>
      if p'.second == y && Steps(x, a, p'.first) { ApartStep(b, x, a, p'.first); }
      else { ApartStep(b, y, a, p'.second); }
    case Both(x, y) =>
      if p'.right == y && Steps(x, a, p'.left) { ApartStep(b, x, a, p'.left); } else { ApartStep(b, y, a, p'.right); }
  }

  /** A step of the right side leaves it apart from the left side, and so is the action itself. */
  lemma {:induction false} RightStepApart<L, V>(p: Prog<L, V>, q: Prog<L, V>, a: Action<L, V>, q': Prog<L, V>)
    requires ApartProgs(p, q) && Steps(q, a, q')
    ensures ApartProgs(p, q') && Apart(a, p)
  {
    match p
    case Nil =>
    case Act(b) => ApartStep(b, q, a, q');
    case Then(x, y) => RightStepApart(x, q, a, q'); RightStepApart(y, q, a, q');
    case Both(x, y) => RightStepApart(x, q, a, q'); RightStepApart(y, q, a, q');
  }

  lemma {:induction false} OverMeans<L, V>(p: Prog<L, V>, s: Store<L, V>)
    requires Over(p)
    ensures Meaning(p, s) == s
  {
    match p
    case Nil =>
    case Then(x, y) => OverMeans(x, s); OverMeans(y, s);
    case Both(x, y) => OverMeans(x, s); OverMeans(y, s);
  }

  /** Whatever action comes next, performing it does not change where the program leads. */
  lemma {:induction false} StepKeepsMeaning<L, V>(p: Prog<L, V>, a: Action<L, V>, p': Prog<L, V>, s: Store<L, V>)
    requires RaceFree(p) && Steps(p, a, p')
    ensures RaceFree(p') && Meaning(p', Exec(a, s)) == Meaning(p, s)
  {
    hide Exec;
    match p
    case Act(_) =>
    case Then(x, y) =>
      if p'.second == y && Steps(x, a, p'.first) {
        StepKeepsMeaning(x, a, p'.first, s);
      } else {
        OverMeans(x, s);
        OverMeans(x, Exec(a, s));
        StepKeepsMeaning(y, a, p'.second, s);
      }
    case Both(x, y) =>
      if p'.right == y && Steps(x, a, p'.left) {
        StepKeepsMeaning(x, a, p'.left, s);
        LeftStepApart(x, a, p'.left, y);
      } else {
        RightStepApart(x, y, a, p'.right);
        ActionCommutes(a, x, s);
        StepKeepsMeaning(y, a, p'.right, Meaning(x, s));
      }
  }

  /** Main result: a race-free program, however its tasks interleave, ends as if every task had been
      run at once where it was created. */
  lemma {:induction false} RaceFreeIsDeterminate<L, V>(p: Prog<L, V>, s: Store<L, V>,
      run: seq<(Action<L, V>, Prog<L, V>)>, p': Prog<L, V>, s': Store<L, V>)
    requires RaceFree(p) && Runs(p, s, run, p', s') && Over(p')
    ensures s' == Meaning(p, s)
    decreases |run|
  {
    hide Steps, RaceFree, Exec;
    if run == [] {
      OverMeans(p, s);
    } else {
      StepKeepsMeaning(p, run[0].0, run[0].1, s);
      RaceFreeIsDeterminate(run[0].1, Exec(run[0].0, s), run[1..], p', s');
    }
  }

  /** A program that is not over can take a step. */
  lemma {:induction false} CanStep<L, V>(p: Prog<L, V>) returns (a: Action<L, V>, p': Prog<L, V>)
    requires !Over(p)
    ensures Steps(p, a, p')
  {
    match p
    case Act(x) => a, p' := x, Nil;
    case Then(x, y) =>
      if !Over(x) { a, p' := CanStep(x); p' := Then(p', y); } else { a, p' := CanStep(y); p' := Then(x, p'); }
    case Both(x, y) =>
      if !Over(x) { a, p' := CanStep(x); p' := Both(p', y); } else { a, p' := CanStep(y); p' := Both(x, p'); }
  }

  // ------------------------------------------------ what may happen

  /** No action after a taskwait is performed before everything in front of it is over. */
  lemma {:induction false} TaskwaitWaits<L, V>(x: Prog<L, V>, y: Prog<L, V>, s: Store<L, V>,
                                               run: seq<(Action<L, V>, Prog<L, V>)>, p': Prog<L, V>, s': Store<L, V>)
    requires Runs(Then(x, y), s, run, p', s')
    ensures p'.Then? && (p'.second == y || Over(p'.first))
    decreases |run|
  {
    hide Exec;
    if run != [] {
      var q := run[0].1;
      if Over(x) && q.first == x && Steps(y, run[0].0, q.second) {
        OverStays(x, q.second, Exec(run[0].0, s), run[1..], p', s');
      } else {
        TaskwaitWaits(q.first, y, Exec(run[0].0, s), run[1..], p', s');
      }
    }
  }

  lemma {:induction false} NoMoreSteps<L, V>(x: Prog<L, V>, a: Action<L, V>, x': Prog<L, V>)
    requires Over(x)
    ensures !Steps(x, a, x')
  {
    match x
    case Nil =>
    case Then(y, z) => if x'.Then? { NoMoreSteps(y, a, x'.first); NoMoreSteps(z, a, x'.second); }
    case Both(y, z) => if x'.Both? { NoMoreSteps(y, a, x'.left); NoMoreSteps(z, a, x'.right); }
  }

  lemma {:induction false} OverStays<L, V>(x: Prog<L, V>, y: Prog<L, V>, s: Store<L, V>,
                                           run: seq<(Action<L, V>, Prog<L, V>)>, p': Prog<L, V>, s': Store<L, V>)
    requires Over(x) && Runs(Then(x, y), s, run, p', s')
    ensures p'.Then? && p'.first == x
    decreases |run|
  {
    hide Exec, Over;
    if run != [] {
      NoMoreSteps(x, run[0].0, run[0].1.first);
      OverStays(x, run[0].1.second, Exec(run[0].0, s), run[1..], p', s');
    }
  }

  function Pair<L, V>(both: bool, x: Prog<L, V>, y: Prog<L, V>): Prog<L, V> {
    if both then Both(x, y) else Then(x, y)
  }

  lemma {:induction false} FirstGoesOn<L, V>(both: bool, x: Prog<L, V>, y: Prog<L, V>, s: Store<L, V>,
                                             run: seq<(Action<L, V>, Prog<L, V>)>, x': Prog<L, V>, s': Store<L, V>)
    returns (whole: seq<(Action<L, V>, Prog<L, V>)>)
    requires Runs(x, s, run, x', s')
    ensures Runs(Pair(both, x, y), s, whole, Pair(both, x', y), s')
    decreases |run|
  {
    hide Exec;
    whole := [];
    if run != [] {
      var x1 := run[0].1;
      var rest := FirstGoesOn(both, x1, y, Exec(run[0].0, s), run[1..], x', s');
      whole := [(run[0].0, Pair(both, x1, y))] + rest;
      assert whole[1..] == rest;
    }
  }

  lemma {:induction false} SecondGoesOn<L, V>(both: bool, x: Prog<L, V>, y: Prog<L, V>, s: Store<L, V>,
                                              run: seq<(Action<L, V>, Prog<L, V>)>, y': Prog<L, V>, s': Store<L, V>)
    returns (whole: seq<(Action<L, V>, Prog<L, V>)>)
    requires (both || Over(x)) && Runs(y, s, run, y', s')
    ensures Runs(Pair(both, x, y), s, whole, Pair(both, x, y'), s')
    decreases |run|
  {
    hide Exec;
    whole := [];
    if run != [] {
      var y1 := run[0].1;
      var rest := SecondGoesOn(both, x, y1, Exec(run[0].0, s), run[1..], y', s');
      whole := [(run[0].0, Pair(both, x, y1))] + rest;
      assert whole[1..] == rest;
    }
  }

  lemma {:induction false} RunsTrans<L, V>(p: Prog<L, V>, s: Store<L, V>, one: seq<(Action<L, V>, Prog<L, V>)>,
                                           q: Prog<L, V>, t: Store<L, V>, two: seq<(Action<L, V>, Prog<L, V>)>,
                                           p': Prog<L, V>, s': Store<L, V>)
    requires Runs(p, s, one, q, t) && Runs(q, t, two, p', s')
    ensures Runs(p, s, one + two, p', s')
    decreases |one|
  {
    hide Exec, Steps;
    if one == [] {
      assert one + two == two;
    } else {
      assert (one + two)[1..] == one[1..] + two;
      RunsTrans(one[0].1, Exec(one[0].0, s), one[1..], q, t, two, p', s');
    }
  }

  /** Every program can be run to its end as if its tasks were run where they are created. */
  lemma {:induction false} RunInPlace<L, V>(p: Prog<L, V>, s: Store<L, V>)
    returns (run: seq<(Action<L, V>, Prog<L, V>)>, p': Prog<L, V>)
    ensures Runs(p, s, run, p', Meaning(p, s)) && Over(p')
    decreases p, 1
  {
    match p
    case Nil => run, p' := [], Nil;
    case Act(a) =>
      run, p' := [(a, Nil)], Nil;
      assert run[1..] == [];
    case Then(x, y) => run, p' := OneThenTheOther(false, x, y, s);
    case Both(x, y) => run, p' := OneThenTheOther(true, x, y, s);
  }

  lemma {:induction false} OneThenTheOther<L, V>(both: bool, x: Prog<L, V>, y: Prog<L, V>, s: Store<L, V>)
    returns (run: seq<(Action<L, V>, Prog<L, V>)>, p': Prog<L, V>)
    ensures Runs(Pair(both, x, y), s, run, p', Meaning(y, Meaning(x, s))) && Over(p')
    decreases Pair(both, x, y), 0
  {
    hide Runs, Meaning;
    var one, x' := RunInPlace(x, s);
    var two, y' := RunInPlace(y, Meaning(x, s));
    var whole1 := FirstGoesOn(both, x, y, s, one, x', Meaning(x, s));
    var whole2 := SecondGoesOn(both, x', y, Meaning(x, s), two, y', Meaning(y, Meaning(x, s)));
    run, p' := whole1 + whole2, Pair(both, x', y');
    RunsTrans(Pair(both, x, y), s, whole1, Pair(both, x', y), Meaning(x, s), whole2, p', Meaning(y, Meaning(x, s)));
  }

  /** Two tasks without a taskwait between them may be run in either order: where the orders differ,
      so does the result. */
  lemma EitherOrder<L, V>(x: Prog<L, V>, y: Prog<L, V>, s: Store<L, V>)
    returns (xFirst: seq<(Action<L, V>, Prog<L, V>)>, p: Prog<L, V>,
             yFirst: seq<(Action<L, V>, Prog<L, V>)>, q: Prog<L, V>)
    ensures Runs(Both(x, y), s, xFirst, p, Meaning(y, Meaning(x, s))) && Over(p)
    ensures Runs(Both(x, y), s, yFirst, q, Meaning(x, Meaning(y, s))) && Over(q)
  {
    hide Runs, Meaning;
    xFirst, p := OneThenTheOther(true, x, y, s);
    var two, y' := RunInPlace(y, s);
    var one, x' := RunInPlace(x, Meaning(y, s));
    var whole1 := SecondGoesOn(true, x, y, s, two, y', Meaning(y, s));
    var whole2 := FirstGoesOn(true, x, y', Meaning(y, s), one, x', Meaning(x, Meaning(y, s)));
    yFirst, q := whole1 + whole2, Both(x', y');
    RunsTrans(Both(x, y), s, whole1, Both(x, y'), Meaning(y, s), whole2, q, Meaning(x, Meaning(y, s)));
  }
}
