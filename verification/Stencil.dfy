/** The 1D heat stencil on a ring: the flat form, and the form that works on partitions. */
module Stencil {
  import opened Blocks

  /** The three-point operator; the programs only ever call it on neighbouring points. */
  type Heat = (real, real, real) -> real

  // ------------------------------------------------ the flat form

  function Left(i: int, n: int): int { if i == 0 then n - 1 else i - 1 }

  function Right(i: int, n: int): int { if i == n - 1 then 0 else i + 1 }

  function FlatPoint(h: Heat, u: seq<real>, i: int): real
    requires 0 <= i < |u|
  {
    h(u[Left(i, |u|)], u[i], u[Right(i, |u|)])
  }

  /** One time step on a ring of points. */
  function FlatStep(h: Heat, u: seq<real>): (v: seq<real>)
    ensures |v| == |u|
  {
    seq(|u|, i requires 0 <= i < |u| => FlatPoint(h, u, i))
  }

  /** Every point is moved by its two neighbours on the ring. */
  lemma StepIs(h: Heat, u: seq<real>, i: int)
    requires 0 <= i < |u|
    ensures FlatStep(h, u)[i] == h(u[(i - 1) % |u|], u[i], u[(i + 1) % |u|])
  {
    RingIs(i, |u|);
  }

  lemma RingIs(i: int, n: int)
    requires 0 <= i < n
    ensures Left(i, n) == (i - 1) % n && Right(i, n) == (i + 1) % n
  {
    RemainderOf(i - 1, if i == 0 then -1 else 0, n);
    RemainderOf(i + 1, if i == n - 1 then 1 else 0, n);
  }

  function FlatRun(h: Heat, u: seq<real>, steps: nat): (v: seq<real>)
    ensures |v| == |u|
  {
    if steps == 0 then u else FlatStep(h, FlatRun(h, u, steps - 1))
  }

  /** The initial values count up. */
  function Ramp(n: nat): (u: seq<real>)
    ensures |u| == n && forall i | 0 <= i < n :: u[i] == i as real
  {
    seq(n, i => i as real)
  }

  /** One turn of the time loop of 1d_stencil_1: the ends wrap around, the loop does the rest. */
  method FlatTurn(h: Heat, current: array<real>, next: array<real>)
    requires current.Length >= 2 && next.Length == current.Length && current != next
    modifies next
    ensures next[..] == FlatStep(h, current[..])
  {
    var nx := current.Length;
    ghost var u := current[..];
    next[0] := h(current[nx - 1], current[0], current[1]);
    for i := 1 to nx - 1
      invariant current[..] == u
      invariant forall k | 0 <= k < i :: next[k] == FlatPoint(h, u, k)
    {
      next[i] := h(current[i - 1], current[i], current[i + 1]);
    }
    next[nx - 1] := h(current[nx - 2], current[nx - 1], current[0]);
    assert current[..] == u;
    assert next[..] == FlatStep(h, u);
  }

  method Initialise(u: array<real>)
    modifies u
    ensures u[..] == Ramp(u.Length)
  {
    for i := 0 to u.Length
      invariant forall k | 0 <= k < i :: u[k] == k as real
    {
      u[i] := i as real;
    }
    assert u[..] == Ramp(u.Length);
  }

  /** do_work of 1d_stencil_1: two buffers used in turn. */
  method FlatWork(h: Heat, nx: nat, nt: nat) returns (u: array<real>)
    requires nx >= 2
    ensures u[..] == FlatRun(h, Ramp(nx), nt)
  {
    hide FlatStep, Ramp;
    var even, odd := new real[nx], new real[nx];
    Initialise(even);
    for t := 0 to nt
      invariant t % 2 == 0 ==> even[..] == FlatRun(h, Ramp(nx), t)
      invariant t % 2 == 1 ==> odd[..] == FlatRun(h, Ramp(nx), t)
    {
      if t % 2 == 0 {
        FlatTurn(h, even, odd);
      } else {
        FlatTurn(h, odd, even);
      }
    }
    u := if nt % 2 == 0 then even else odd;
  }

  // ------------------------------------------------ indices of neighbouring partitions

  const WORD := 0x1_0000_0000_0000_0000

  /** idx: the argument is an unsigned 64-bit word, tested as a signed one. */
  function Idx(i: int, size: int): int
    requires size > 0
  {
    if i >= WORD / 2 then ((i + size) % WORD) % size else i % size
  }

  /** Called with i - 1 and i + 1 in wrapping arithmetic, idx yields the ring neighbours. */
  lemma IdxIsNeighbour(i: int, size: int)
    requires 0 <= i < size < WORD / 2
    ensures Idx((i - 1) % WORD, size) == Left(i, size)
    ensures Idx((i + 1) % WORD, size) == Right(i, size)
  {
    if i == 0 {
      RemainderOf(-1, -1, WORD);
      RemainderOf(WORD - 1 + size, 1, WORD);
      RemainderOf(size - 1, 0, size);
    } else {
      RemainderOf(i - 1, 0, WORD);
      RemainderOf(i - 1, 0, size);
    }
    RemainderOf(i + 1, 0, WORD);
    RemainderOf(i + 1, if i == size - 1 then 1 else 0, size);
  }

  lemma RemainderOf(x: int, q: int, d: int)
    requires d > 0 && 0 <= x - q * d < d
    ensures x % d == x - q * d
  {
    var r := x - q * d;
    var k := x / d - q;
    Distribute(x / d, -q, d);
    if k >= 1 { MulGrows(k, d); }
    if k <= -1 { MulGrows(-k, d); }
  }

  // ------------------------------------------------ the partitioned form

  type Space = seq<seq<real>>

  /** All partitions have nx points. */
  ghost predicate Even(s: Space, nx: int) {
    forall i | 0 <= i < |s| :: |s[i]| == nx
  }

  /** Point j of the partition that heat_part computes from three neighbours. */
  function PartPoint(h: Heat, left: seq<real>, middle: seq<real>, right: seq<real>, j: int): real
    requires |left| == |middle| == |right| >= 2 && 0 <= j < |middle|
  {
    var size := |middle|;
    if j == 0 then h(left[size - 1], middle[0], middle[1])
    else if j == size - 1 then h(middle[size - 2], middle[size - 1], right[0])
    else h(middle[j - 1], middle[j], middle[j + 1])
  }

  function PartStep(h: Heat, left: seq<real>, middle: seq<real>, right: seq<real>): (next: seq<real>)
    requires |left| == |middle| == |right| >= 2
    ensures |next| == |middle|
  {
    seq(|middle|, j requires 0 <= j < |middle| => PartPoint(h, left, middle, right, j))
  }

  function SpaceStep(h: Heat, s: Space, nx: int): (s': Space)
    requires nx >= 2 && Even(s, nx)
    ensures |s'| == |s| && Even(s', nx)
  {
    seq(|s|, i requires 0 <= i < |s| => PartStep(h, s[Left(i, |s|)], s[i], s[Right(i, |s|)]))
  }

  function SpaceRun(h: Heat, s: Space, nx: int, steps: nat): (s': Space)
    requires nx >= 2 && Even(s, nx)
    ensures |s'| == |s| && Even(s', nx)
  {
    if steps == 0 then s else SpaceStep(h, SpaceRun(h, s, nx, steps - 1), nx)
  }

  /** The constructor partition_data(nx, i). */
  function InitialPart(nx: nat, i: nat): seq<real> {
    seq(nx, j => ((i * nx) as real) + (j as real))
  }

  /** The points count up through the ring. */
  function InitialSpace(np: nat, nx: nat): (s: Space)
    ensures |s| == np && Even(s, nx)
    ensures forall i, j | 0 <= i < np && 0 <= j < nx :: s[i][j] == (i * nx + j) as real
  {
    seq(np, i requires 0 <= i < np => InitialPart(nx, i))
  }

  method HeatPart(h: Heat, left: seq<real>, middle: seq<real>, right: seq<real>) returns (next: seq<real>)
    requires |left| == |middle| == |right| >= 2
    ensures next == PartStep(h, left, middle, right)
  {
    var size := |middle|;
    var data := new real[size];
    data[0] := h(left[size - 1], middle[0], middle[1]);
    for i := 1 to size - 1
      invariant forall j | 0 <= j < i :: data[j] == PartPoint(h, left, middle, right, j)
    {
      data[i] := h(middle[i - 1], middle[i], middle[i + 1]);
    }
    data[size - 1] := h(middle[size - 2], middle[size - 1], right[0]);
    next := data[..];
  }

  method SpaceTurn(h: Heat, current: array<seq<real>>, next: array<seq<real>>, nx: nat)
    requires nx >= 2 && Even(current[..], nx) && next.Length == current.Length && current != next
    requires 0 < current.Length < WORD / 2
    modifies next
    ensures next[..] == SpaceStep(h, current[..], nx)
  {
    var np := current.Length;
    ghost var s := current[..];
    for i := 0 to np
      invariant current[..] == s
      invariant forall k | 0 <= k < i :: next[k] == SpaceStep(h, s, nx)[k]
    {
      IdxIsNeighbour(i, np);
      var a, b, c := current[Idx((i - 1) % WORD, np)], current[i], current[Idx((i + 1) % WORD, np)];
      assert a == s[Left(i, np)] && b == s[i] && c == s[Right(i, np)];
      next[i] := HeatPart(h, a, b, c);
    }
    assert next[..] == SpaceStep(h, s, nx);
  }

  /** The constructor partition_data(nx, i) for every partition. */
  method InitialiseSpace(u: array<seq<real>>, nx: nat)
    modifies u
    ensures u[..] == InitialSpace(u.Length, nx)
  {
    for i := 0 to u.Length
      invariant forall k | 0 <= k < i :: u[k] == InitialPart(nx, k)
    {
      u[i] := NewPart(nx, i);
    }
    assert u[..] == InitialSpace(u.Length, nx);
  }

  method NewPart(nx: nat, i: nat) returns (part: seq<real>)
    ensures part == InitialPart(nx, i)
  {
    var data := new real[nx];
    var base := (i * nx) as real;
    for j := 0 to nx
      invariant forall k | 0 <= k < j :: data[k] == base + (k as real)
    {
      data[j] := base + (j as real);
    }
    part := data[..];
  }

  /** do_work of 1d_stencil_3. */
  method PartitionedWork(h: Heat, np: nat, nx: nat, nt: nat) returns (u: array<seq<real>>)
    requires nx >= 2 && 0 < np < WORD / 2
    ensures u[..] == SpaceRun(h, InitialSpace(np, nx), nx, nt)
  {
    hide SpaceStep, InitialSpace, Even;
    var even, odd := new seq<real>[np](_ => []), new seq<real>[np](_ => []);
    InitialiseSpace(even, nx);
    for t := 0 to nt
      invariant t % 2 == 0 ==> even[..] == SpaceRun(h, InitialSpace(np, nx), nx, t)
      invariant t % 2 == 1 ==> odd[..] == SpaceRun(h, InitialSpace(np, nx), nx, t)
    {
      if t % 2 == 0 {
        SpaceTurn(h, even, odd, nx);
      } else {
        SpaceTurn(h, odd, even, nx);
      }
    }
    u := if nt % 2 == 0 then even else odd;
  }

  // ------------------------------------------------ the two forms agree

  /** u is the concatenation of the partitions of s. */
  ghost predicate Joins(s: Space, nx: int, u: seq<real>) {
    && Even(s, nx) && |u| == |s| * nx
    && forall i, j | 0 <= i < |s| && 0 <= j < nx :: 0 <= Place(i, j, nx) < |u| && u[Place(i, j, nx)] == s[i][j]
  }

  function Place(i: int, j: int, nx: int): int { i * nx + j }

  lemma PlaceBounds(i: int, j: int, nx: int, np: int)
    requires 0 <= i < np && 0 <= j < nx
    ensures 0 <= Place(i, j, nx) < np * nx
    ensures j > 0 ==> Place(i, j, nx) - 1 == Place(i, j - 1, nx)
    ensures j < nx - 1 ==> Place(i, j, nx) + 1 == Place(i, j + 1, nx)
    ensures j == 0 && i > 0 ==> Place(i, j, nx) - 1 == Place(i - 1, nx - 1, nx)
    ensures j == nx - 1 && i < np - 1 ==> Place(i, j, nx) + 1 == Place(i + 1, 0, nx)
    ensures Place(0, 0, nx) == 0 && Place(np - 1, nx - 1, nx) == np * nx - 1
    ensures Place(i, j, nx) == 0 ==> i == 0 && j == 0
    ensures Place(i, j, nx) == np * nx - 1 ==> i == np - 1 && j == nx - 1
  {
    Distribute(i, -1, nx);
    Distribute(i, 1, nx);
    Distribute(np, -1, nx);
    if i > 0 { MulGrows(i, nx); }
    if i < np - 1 {
      MulGrows(np - 1 - i, nx);
      Distribute(i, np - 1 - i, nx);
    }
  }

  /** Every place on the ring belongs to one partition. */
  lemma PlaceOf(g: int, nx: int, np: int) returns (i: int, j: int)
    requires nx >= 1 && np >= 0 && 0 <= g < np * nx
    ensures 0 <= i < np && 0 <= j < nx && Place(i, j, nx) == g
  {
    i, j := g / nx, g % nx;
    if i >= np {
      Distribute(np, i - np, nx);
      if i > np { MulGrows(i - np, nx); }
    }
  }

  /** The neighbours of a point on the ring, told by partition and offset. */
  lemma RingNeighbours(i: int, j: int, nx: int, np: int)
    requires nx >= 2 && 0 <= i < np && 0 <= j < nx
    ensures var g, n := Place(i, j, nx), np * nx;
            && 0 <= g < n
            && Left(g, n) == (if j > 0 then Place(i, j - 1, nx) else Place(Left(i, np), nx - 1, nx))
            && Right(g, n) == (if j < nx - 1 then Place(i, j + 1, nx) else Place(Right(i, np), 0, nx))
  {
    PlaceBounds(i, j, nx, np);
  }

  /** One step on the partitions is one step on the ring. */
  lemma StepJoins(h: Heat, s: Space, nx: int, u: seq<real>)
    requires nx >= 2 && |s| >= 1 && Joins(s, nx, u)
    ensures Joins(SpaceStep(h, s, nx), nx, FlatStep(h, u))
  {
    var s', u' := SpaceStep(h, s, nx), FlatStep(h, u);
    forall i, j | 0 <= i < |s| && 0 <= j < nx
      ensures 0 <= Place(i, j, nx) < |u'| && u'[Place(i, j, nx)] == s'[i][j]
    {
      PointJoins(h, s, nx, u, i, j);
    }
  }

  lemma PointJoins(h: Heat, s: Space, nx: int, u: seq<real>, i: int, j: int)
    requires nx >= 2 && Joins(s, nx, u) && 0 <= i < |s| && 0 <= j < nx
    ensures 0 <= Place(i, j, nx) < |u|
    ensures FlatStep(h, u)[Place(i, j, nx)] == SpaceStep(h, s, nx)[i][j]
  {
    var np, g := |s|, Place(i, j, nx);
    RingNeighbours(i, j, nx, np);
    assert u[g] == s[i][j];
    if j == 0 {
      assert u[Left(g, |u|)] == s[Left(i, np)][nx - 1];
    } else {
      assert u[Left(g, |u|)] == s[i][j - 1];
    }
    if j == nx - 1 {
      assert u[Right(g, |u|)] == s[Right(i, np)][0];
    } else {
      assert u[Right(g, |u|)] == s[i][j + 1];
    }
  }

  lemma InitialJoins(np: nat, nx: nat)
    requires nx >= 1
    ensures Joins(InitialSpace(np, nx), nx, Ramp(np * nx))
  {
    var s, u := InitialSpace(np, nx), Ramp(np * nx);
    forall i, j | 0 <= i < np && 0 <= j < nx
      ensures 0 <= Place(i, j, nx) < |u| && u[Place(i, j, nx)] == s[i][j]
    {
      PlaceBounds(i, j, nx, np);
    }
  }

  /** Main result: after any number of steps the partitions, laid end to end, are the flat run
      on np * nx points. */
  lemma {:induction false} PartitionedRefinesFlat(h: Heat, np: nat, nx: nat, nt: nat)
    requires np >= 1 && nx >= 2
    ensures Joins(SpaceRun(h, InitialSpace(np, nx), nx, nt), nx, FlatRun(h, Ramp(np * nx), nt))
  {
    if nt == 0 {
      InitialJoins(np, nx);
    } else {
      PartitionedRefinesFlat(h, np, nx, nt - 1);
      StepJoins(h, SpaceRun(h, InitialSpace(np, nx), nx, nt - 1), nx, FlatRun(h, Ramp(np * nx), nt - 1));
    }
  }

  /** The joined sequence is determined by the partitions, and the other way round. */
  lemma JoinsUnique(s: Space, nx: int, u: seq<real>, s': Space, u': seq<real>)
    requires nx >= 1 && Joins(s, nx, u) && Joins(s', nx, u') && |s| == |s'|
    ensures s == s' <==> u == u'
  {
    if s == s' {
      forall g | 0 <= g < |u| ensures u[g] == u'[g] {
        var i, j := PlaceOf(g, nx, |s|);
      }
      assert u == u';
    }
    if u == u' {
      forall i | 0 <= i < |s| ensures s[i] == s'[i] {
        forall j | 0 <= j < nx ensures s[i][j] == s'[i][j] {
          assert u[Place(i, j, nx)] == s[i][j];
        }
      }
    }
  }
}
