/** The four block kernels of the LU codes, in place on the matrix.  omp-lu.c passes pointers
    to the first cell of a block; lu-local.cpp passes block descriptors.  Both come down to
    the row and column where the block starts. */
module LuKernels {
  import opened LuSteps

  ghost function Contents(a: array2<real>): Matrix
    reads a
  {
    map r, c | 0 <= r < a.Length0 && 0 <= c < a.Length1 :: Elem(r, c) := a[r, c]
  }

  method DivideCell(a: array2<real>, r: int, i: int)
    requires 0 <= r < a.Length0 && 0 <= i < a.Length0 && i < a.Length1
    modifies a
    ensures Contents(a) == Divide(old(Contents(a)), r, i)
  {
    a[r, i] := Quotient(a[r, i], a[i, i]);
  }

  method EliminateCell(a: array2<real>, r: int, c: int, i: int)
    requires 0 <= r < a.Length0 && 0 <= i < a.Length0 && 0 <= c < a.Length1 && i < a.Length1
    modifies a
    ensures Contents(a) == Eliminate(old(Contents(a)), r, c, i)
  {
    a[r, c] := SubProduct(a[r, c], a[r, i], a[i, c]);
  }

  /** The innermost loop all kernels share: pivot row i is subtracted from row r. */
  method EliminateRow(a: array2<real>, i: int, r: int, lo: int, hi: int)
    requires 0 <= r < a.Length0 && 0 <= i < a.Length0 && i < a.Length1 && 0 <= lo && hi <= a.Length1
    modifies a
    ensures Contents(a) == ElimRow(old(Contents(a)), i, r, lo, hi)
  {
    hide Contents, Eliminate;
    ghost var m := Contents(a);
    var k := lo;
    while k < hi
      invariant lo <= k && (k <= hi || k == lo)
      invariant Contents(a) == ElimRow(m, i, r, lo, k)
    {
      EliminateCell(a, r, k, i);
      k := k + 1;
    }
  }

  /** Row r of a block that contains the pivot column: the multiplier is formed first. */
  method DivideAndEliminateRow(a: array2<real>, i: int, r: int, c0: int, hi: int)
    requires 0 <= r < a.Length0 && 0 <= i < a.Length0 && 0 <= c0 <= i < hi <= a.Length1
    modifies a
    ensures Contents(a) == RowStep(old(Contents(a)), i, r, c0, hi)
  {
    hide Contents, Divide, ElimRow;
    DivideCell(a, r, i);
    EliminateRow(a, i, r, i + 1, hi);
  }

  /** ProcessDiagonalBlock, diag_op */
  method DiagonalBlock(a: array2<real>, p: int, size: int)
    requires 0 <= p && 0 <= size && p + size <= a.Length0 && p + size <= a.Length1
    modifies a
    ensures Contents(a) == BlockStep(old(Contents(a)), p, p + size, p, p + size, p, p + size)
  {
    hide RowStep, Contents;
    var e := p + size;
    for i := p to e
      invariant Contents(a) == BlockStep(old(Contents(a)), p, i, p, e, p, e)
    {
      ghost var m := Contents(a);
      for j := i + 1 to e
        invariant Contents(a) == PivotStep(m, i, i + 1, j, p, e)
      {
        DivideAndEliminateRow(a, i, j, p, e);
      }
    }
  }

  /** ProcessBlockOnColumn, col_op: the block starts at (r0, p), the diagonal block at (p, p). */
  method BlockOnColumn(a: array2<real>, r0: int, p: int, width: int, height: int)
    requires 0 <= p && 0 <= width && 0 <= height && p + width <= r0
    requires r0 + height <= a.Length0 && p + width <= a.Length1
    modifies a
    ensures Contents(a) == BlockStep(old(Contents(a)), p, p + width, r0, r0 + height, p, p + width)
  {
    hide RowStep, Contents;
    var e := p + width;
    for i := p to e
      invariant Contents(a) == BlockStep(old(Contents(a)), p, i, r0, r0 + height, p, e)
    {
      ghost var m := Contents(a);
      for j := 0 to height
        invariant Contents(a) == PivotStep(m, i, r0, r0 + j, p, e)
      {
        assert PivotStep(m, i, r0, r0 + (j + 1), p, e) == RowStep(PivotStep(m, i, r0, r0 + j, p, e), i, r0 + j, p, e);
        DivideAndEliminateRow(a, i, r0 + j, p, e);
      }
    }
  }

  /** ProcessBlockOnRow, row_op: the block starts at (p, c0), the diagonal block at (p, p). */
  method BlockOnRow(a: array2<real>, c0: int, p: int, height: int, width: int)
    requires 0 <= p && 0 <= width && 0 <= height && p + height <= c0
    requires p + height <= a.Length0 && c0 + width <= a.Length1
    modifies a
    ensures Contents(a) == BlockStep(old(Contents(a)), p, p + height, p, p + height, c0, c0 + width)
  {
    hide ElimRow, Contents;
    var e := p + height;
    for i := p to e
      invariant Contents(a) == BlockStep(old(Contents(a)), p, i, p, e, c0, c0 + width)
    {
      ghost var m := Contents(a);
      for j := i + 1 to e
        invariant Contents(a) == PivotStep(m, i, i + 1, j, c0, c0 + width)
      {
        EliminateRow(a, i, j, c0, c0 + width);
      }
    }
  }

  /** ProcessInnerBlock, inner_op: the block starts at (r0, c0), the pivots at p. */
  method InnerBlock(a: array2<real>, r0: int, c0: int, p: int, pivots: int, height: int, width: int)
    requires 0 <= p && 0 <= pivots && 0 <= width && 0 <= height && p + pivots <= r0 && p + pivots <= c0
    requires r0 + height <= a.Length0 && c0 + width <= a.Length1
    modifies a
    ensures Contents(a) == BlockStep(old(Contents(a)), p, p + pivots, r0, r0 + height, c0, c0 + width)
  {
    hide ElimRow, Contents;
    for i := p to p + pivots
      invariant Contents(a) == BlockStep(old(Contents(a)), p, i, r0, r0 + height, c0, c0 + width)
    {
      ghost var m := Contents(a);
      for j := 0 to height
        invariant Contents(a) == PivotStep(m, i, r0, r0 + j, c0, c0 + width)
      {
        EliminateRow(a, i, r0 + j, c0, c0 + width);
      }
    }
  }
}
