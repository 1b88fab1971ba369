/** The block kernels as lists of single matrix updates, each an atomic step of its task. */
module LuActions {
  import opened TaskGraph
  import opened LuSteps
  import opened Blocks

  type Update = Action<LuSteps.Loc, real>

  function DivideAct(r: int, i: int): Update {
    Action({Elem(r, i), Elem(i, i)}, Elem(r, i), v => Quotient(At(v, r, i), At(v, i, i)))
  }

  function EliminateAct(r: int, c: int, i: int): Update {
    Action({Elem(r, c), Elem(r, i), Elem(i, c)}, Elem(r, c), v => SubProduct(At(v, r, c), At(v, r, i), At(v, i, c)))
  }

  function ElimRowActs(i: int, r: int, lo: int, hi: int): seq<Update>
    decreases hi - lo
  {
    if hi <= lo then [] else ElimRowActs(i, r, lo, hi - 1) + [EliminateAct(r, hi - 1, i)]
  }

  function RowActs(i: int, r: int, c0: int, c1: int): seq<Update> {
    (if c0 <= i < c1 then [DivideAct(r, i)] else []) + ElimRowActs(i, r, Max(i + 1, c0), c1)
  }

  function PivotActs(i: int, lo: int, hi: int, c0: int, c1: int): seq<Update>
    decreases hi - lo
  {
    if hi <= lo then [] else PivotActs(i, lo, hi - 1, c0, c1) + RowActs(i, hi - 1, c0, c1)
  }

  function BlockActs(p0: int, p1: int, r0: int, r1: int, c0: int, c1: int): seq<Update>
    decreases p1 - p0
  {
    if p1 <= p0 then []
    else BlockActs(p0, p1 - 1, r0, r1, c0, c1) + PivotActs(p1 - 1, Max(p1, r0), r1, c0, c1)
  }

  // ------------------------------------------------ the lists compute the block steps

  lemma {:induction false} RunAppend<L, V>(xs: seq<Action<L, V>>, ys: seq<Action<L, V>>, s: Store<L, V>)
    ensures RunBody(xs + ys, s) == RunBody(ys, RunBody(xs, s))
  {
    if ys == [] {
      assert xs + ys == xs;
    } else {
      assert (xs + ys)[..|xs + ys| - 1] == xs + ys[..|ys| - 1];
      RunAppend(xs, ys[..|ys| - 1], s);
    }
  }

  lemma RunSnoc<L, V>(xs: seq<Action<L, V>>, a: Action<L, V>, s: Store<L, V>)
    ensures RunBody(xs + [a], s) == Exec(a, RunBody(xs, s))
  {
    assert (xs + [a])[..|xs|] == xs;
  }

  lemma ExecDivide(m: Matrix, r: int, i: int)
    ensures Exec(DivideAct(r, i), m) == Divide(m, r, i)
  {
    var v := View(m, DivideAct(r, i).uses);
    assert At(v, r, i) == At(m, r, i) && At(v, i, i) == At(m, i, i);
  }

  lemma ExecEliminate(m: Matrix, r: int, c: int, i: int)
    ensures Exec(EliminateAct(r, c, i), m) == Eliminate(m, r, c, i)
  {
    var v := View(m, EliminateAct(r, c, i).uses);
    assert At(v, r, c) == At(m, r, c) && At(v, r, i) == At(m, r, i) && At(v, i, c) == At(m, i, c);
  }

  lemma {:induction false} RunElimRow(m: Matrix, i: int, r: int, lo: int, hi: int)
    ensures RunBody(ElimRowActs(i, r, lo, hi), m) == ElimRow(m, i, r, lo, hi)
    decreases hi - lo
  {
    if lo < hi {
      RunElimRow(m, i, r, lo, hi - 1);
      RunSnoc(ElimRowActs(i, r, lo, hi - 1), EliminateAct(r, hi - 1, i), m);
      ExecEliminate(ElimRow(m, i, r, lo, hi - 1), r, hi - 1, i);
    }
  }

  lemma RunRow(m: Matrix, i: int, r: int, c0: int, c1: int)
    ensures RunBody(RowActs(i, r, c0, c1), m) == RowStep(m, i, r, c0, c1)
  {
    var lo := Max(i + 1, c0);
    if c0 <= i < c1 {
      RunAppend([DivideAct(r, i)], ElimRowActs(i, r, lo, c1), m);
      RunSnoc([], DivideAct(r, i), m);
      assert [] + [DivideAct(r, i)] == [DivideAct(r, i)];
      ExecDivide(m, r, i);
      RunElimRow(Divide(m, r, i), i, r, lo, c1);
    } else {
      assert RowActs(i, r, c0, c1) == ElimRowActs(i, r, lo, c1);
      RunElimRow(m, i, r, lo, c1);
    }
  }

  lemma {:induction false} RunPivot(m: Matrix, i: int, lo: int, hi: int, c0: int, c1: int)
    ensures RunBody(PivotActs(i, lo, hi, c0, c1), m) == PivotStep(m, i, lo, hi, c0, c1)
    decreases hi - lo
  {
    if lo < hi {
      RunPivot(m, i, lo, hi - 1, c0, c1);
      RunAppend(PivotActs(i, lo, hi - 1, c0, c1), RowActs(i, hi - 1, c0, c1), m);
      RunRow(PivotStep(m, i, lo, hi - 1, c0, c1), i, hi - 1, c0, c1);
    }
  }

  lemma {:induction false} RunBlock(m: Matrix, p0: int, p1: int, r0: int, r1: int, c0: int, c1: int)
    ensures RunBody(BlockActs(p0, p1, r0, r1, c0, c1), m) == BlockStep(m, p0, p1, r0, r1, c0, c1)
    decreases p1 - p0
  {
    if p0 < p1 {
      RunBlock(m, p0, p1 - 1, r0, r1, c0, c1);
      RunAppend(BlockActs(p0, p1 - 1, r0, r1, c0, c1), PivotActs(p1 - 1, Max(p1, r0), r1, c0, c1), m);
      RunPivot(BlockStep(m, p0, p1 - 1, r0, r1, c0, c1), p1 - 1, Max(p1, r0), r1, c0, c1);
    }
  }

  // ------------------------------------------------ the lists stay inside their blocks

  /** An update of a cell of the block from that cell and one pivot's row and column. */
  ghost predicate LocalUpdate(a: Update, p0: int, p1: int, r0: int, r1: int, c0: int, c1: int) {
    exists i, r, c ::
      && p0 <= i < p1 && r0 <= r < r1 && c0 <= c < c1
      && a.target == Elem(r, c) && a.uses <= {Elem(r, c), Elem(r, i), Elem(i, c)}
  }

  ghost predicate AllLocal(acts: seq<Update>, p0: int, p1: int, r0: int, r1: int, c0: int, c1: int) {
    forall k | 0 <= k < |acts| :: LocalUpdate(acts[k], p0, p1, r0, r1, c0, c1)
  }

  lemma AllLocalAppend(xs: seq<Update>, ys: seq<Update>, p0: int, p1: int, r0: int, r1: int, c0: int, c1: int)
    requires AllLocal(xs, p0, p1, r0, r1, c0, c1) && AllLocal(ys, p0, p1, r0, r1, c0, c1)
    ensures AllLocal(xs + ys, p0, p1, r0, r1, c0, c1)
  {
  }

  lemma {:induction false} ElimRowLocal(i: int, r: int, lo: int, hi: int, p0: int, p1: int, r0: int, r1: int, c0: int,
                                        c1: int)
    requires p0 <= i < p1 && r0 <= r < r1 && c0 <= lo && hi <= c1
    ensures AllLocal(ElimRowActs(i, r, lo, hi), p0, p1, r0, r1, c0, c1)
    decreases hi - lo
  {
    if lo < hi {
      ElimRowLocal(i, r, lo, hi - 1, p0, p1, r0, r1, c0, c1);
      var a := EliminateAct(r, hi - 1, i);
      assert a.target == Elem(r, hi - 1) && a.uses <= {Elem(r, hi - 1), Elem(r, i), Elem(i, hi - 1)};
      AllLocalAppend(ElimRowActs(i, r, lo, hi - 1), [a], p0, p1, r0, r1, c0, c1);
    }
  }

  lemma {:induction false} PivotLocal(i: int, lo: int, hi: int, p0: int, p1: int, r0: int, r1: int, c0: int, c1: int)
    requires p0 <= i < p1 && r0 <= lo && hi <= r1
    ensures AllLocal(PivotActs(i, lo, hi, c0, c1), p0, p1, r0, r1, c0, c1)
    decreases hi - lo
  {
    if lo < hi {
      var r := hi - 1;
      PivotLocal(i, lo, r, p0, p1, r0, r1, c0, c1);
      ElimRowLocal(i, r, Max(i + 1, c0), c1, p0, p1, r0, r1, c0, c1);
      if c0 <= i < c1 {
        var a := DivideAct(r, i);
        assert a.target == Elem(r, i) && a.uses <= {Elem(r, i), Elem(r, i), Elem(i, i)};
        AllLocalAppend([a], ElimRowActs(i, r, Max(i + 1, c0), c1), p0, p1, r0, r1, c0, c1);
      } else {
        AllLocalAppend([], ElimRowActs(i, r, Max(i + 1, c0), c1), p0, p1, r0, r1, c0, c1);
      }
      AllLocalAppend(PivotActs(i, lo, r, c0, c1), RowActs(i, r, c0, c1), p0, p1, r0, r1, c0, c1);
    }
  }

  lemma {:induction false} BlockLocal(p0: int, p: int, p1: int, r0: int, r1: int, c0: int, c1: int)
    requires p <= p1
    ensures AllLocal(BlockActs(p0, p, r0, r1, c0, c1), p0, p1, r0, r1, c0, c1)
    decreases p - p0
  {
    if p0 < p {
      BlockLocal(p0, p - 1, p1, r0, r1, c0, c1);
      PivotLocal(p - 1, Max(p, r0), r1, p0, p1, r0, r1, c0, c1);
      AllLocalAppend(BlockActs(p0, p - 1, r0, r1, c0, c1), PivotActs(p - 1, Max(p, r0), r1, c0, c1), p0, p1, r0, r1, c0,
                     c1);
    }
  }
}
