/** nqueen.hpp and nqueen.cpp: counting the placements of queens by backtracking. */
module NQueens {

  // ------------------------------------------------ what is counted

  /** Queens in columns i and j of the board attack each other. */
  predicate Attack(b: seq<int>, i: int, j: int)
    requires 0 <= i < |b| && 0 <= j < |b|
  {
    b[i] == b[j] || b[j] - b[i] == j - i || b[i] - b[j] == j - i
  }

  /** No two queens in the first n columns attack each other. */
  ghost predicate Safe(b: seq<int>, n: int)
    requires n <= |b|
  {
    forall i, j | 0 <= i < j < n :: !Attack(b, i, j)
  }

  /** All ways to put one queen into each of n columns of a board with `size` rows. */
  ghost function Boards(size: int, n: nat): set<seq<int>> {
    if n == 0 then {[]} else set b, i | b in Boards(size, n - 1) && 0 <= i < size :: b + [i]
  }

  /** A board of n columns is one of n - 1 columns with one more queen. */
  lemma BoardGrows(size: int, n: nat, b: seq<int>)
    requires n > 0
    ensures b in Boards(size, n) <==> |b| > 0 && b[..|b| - 1] in Boards(size, n - 1) && 0 <= b[|b| - 1] < size
  {
    if |b| > 0 { assert b == b[..|b| - 1] + [b[|b| - 1]]; }
    if b in Boards(size, n) {
      var front, i :| front in Boards(size, n - 1) && 0 <= i < size && b == front + [i];
      assert b[..|b| - 1] == front;
    }
  }

  lemma {:induction false} BoardsAre(size: int, n: nat, b: seq<int>)
    ensures b in Boards(size, n) <==> |b| == n && forall i | 0 <= i < n :: 0 <= b[i] < size
  {
    if n > 0 {
      BoardGrows(size, n, b);
      if |b| > 0 { BoardsAre(size, n - 1, b[..|b| - 1]); }
    }
  }

  /** The solutions of the puzzle that begin with the given columns. */
  ghost function Solutions(size: nat, prefix: seq<int>): set<seq<int>> {
    set b | b in Boards(size, size) && prefix <= b && Safe(b, |b|)
  }

  // ------------------------------------------------ the rules of the game

  /** A square of the board: its column and its row. */
  datatype Square = Square(column: int, row: int)

  /** The square reached by so many steps of one column and `slope` rows each. */
  function Walk(from: Square, slope: int, steps: nat): Square
    decreases steps
  {
    if steps == 0 then from else Walk(Square(from.column + 1, from.row + slope), slope, steps - 1)
  }

  lemma {:induction false} WalkEnds(from: Square, slope: int, steps: nat)
    requires -1 <= slope <= 1
    ensures Walk(from, slope, steps) == Square(from.column + steps, from.row + slope * steps)
    decreases steps
  {
    if steps > 0 { WalkEnds(Square(from.column + 1, from.row + slope), slope, steps - 1); }
  }

  predicate LeadsTo(b: seq<int>, i: nat, j: nat, slope: int)
    requires i < j < |b|
  {
    Walk(Square(i, b[i]), slope, j - i) == Square(j, b[j])
  }

  /** Two queens attack each other exactly if unit steps of the same kind, along the row or along one
      of the diagonals, lead from one to the other. */
  lemma AttackIsQueenMove(b: seq<int>, i: nat, j: nat)
    requires i < j < |b|
    ensures Attack(b, i, j) <==> exists slope :: -1 <= slope <= 1 && LeadsTo(b, i, j, slope)
  {
    WalkEnds(Square(i, b[i]), 0, j - i);
    WalkEnds(Square(i, b[i]), 1, j - i);
    WalkEnds(Square(i, b[i]), -1, j - i);
    assert LeadsTo(b, i, j, 0) <==> b[j] == b[i];
    assert LeadsTo(b, i, j, 1) <==> b[j] == b[i] + (j - i);
    assert LeadsTo(b, i, j, -1) <==> b[j] == b[i] - (j - i);
  }

  lemma SafeIs(b: seq<int>)
    ensures Safe(b, |b|) <==>
            forall i, j | 0 <= i < j < |b| :: b[i] != b[j] && b[j] - b[i] != j - i && b[i] - b[j] != j - i
  {
    if Safe(b, |b|) {
      forall i, j | 0 <= i < j < |b| ensures b[i] != b[j] && b[j] - b[i] != j - i && b[i] - b[j] != j - i {
        assert !Attack(b, i, j);
      }
    }
  }

  /** The solutions that begin with the given columns: the rows are on the board, no two are equal, and
      no two queens are as far apart in rows as in columns. */
  lemma SolutionsAre(size: nat, prefix: seq<int>, b: seq<int>)
    ensures b in Solutions(size, prefix) <==>
            && |b| == size && prefix <= b && (forall i | 0 <= i < size :: 0 <= b[i] < size)
            && forall i, j | 0 <= i < j < size :: b[i] != b[j] && b[j] - b[i] != j - i && b[i] - b[j] != j - i
  {
    BoardsAre(size, size, b);
    SafeIs(b);
  }

  /** There are none on a board of 2 by 2, and two on one of 4 by 4. */
  lemma SmallBoards()
    ensures Solutions(2, []) == {} && Solutions(4, []) == {[1, 3, 0, 2], [2, 0, 3, 1]} && |Solutions(4, [])| == 2
  {
    hide Solutions;
    forall b ensures b !in Solutions(2, []) {
      SolutionsAre(2, [], b);
      if |b| == 2 { TwoRows(b[0], b[1]); }
    }
    forall b ensures b in Solutions(4, []) <==> b in {[1, 3, 0, 2], [2, 0, 3, 1]} {
      SolutionOfFour(b);
    }
    assert Solutions(4, []) == {[1, 3, 0, 2], [2, 0, 3, 1]};
    assert [1, 3, 0, 2][0] == 1 && [2, 0, 3, 1][0] == 2;
  }

  lemma SolutionOfFour(b: seq<int>)
    ensures b in Solutions(4, []) <==> b in {[1, 3, 0, 2], [2, 0, 3, 1]}
  {
    hide Solutions;
    SolutionsAre(4, [], b);
    if b in Solutions(4, []) { FourQueens(b); }
  }

  lemma TwoRows(p: int, q: int)
    ensures 0 <= p < 2 && 0 <= q < 2 ==> p == q || q - p == 1 || p - q == 1
  {
  }

  lemma FourQueens(b: seq<int>)
    requires |b| == 4 && forall i | 0 <= i < 4 :: 0 <= b[i] < 4
    requires forall i, j | 0 <= i < j < 4 :: b[i] != b[j] && b[j] - b[i] != j - i && b[i] - b[j] != j - i
    ensures b == [1, 3, 0, 2] || b == [2, 0, 3, 1]
  {
    var p, q, r, s := b[0], b[1], b[2], b[3];
    assert b == [p, q, r, s];
    Four(p, q, r, s);
  }

  lemma Four(p: int, q: int, r: int, s: int)
    requires 0 <= p < 4 && 0 <= q < 4 && 0 <= r < 4 && 0 <= s < 4
    requires p != q && p != r && p != s && q != r && q != s && r != s
    requires q - p != 1 && p - q != 1 && r - q != 1 && q - r != 1 && s - r != 1 && r - s != 1
    requires r - p != 2 && p - r != 2 && s - q != 2 && q - s != 2 && s - p != 3 && p - s != 3
    ensures (p == 1 && q == 3 && r == 0 && s == 2) || (p == 2 && q == 0 && r == 3 && s == 1)
  {
  }

  /** Those whose next column is below k. */
  ghost function SolutionsBelow(size: nat, prefix: seq<int>, k: int): set<seq<int>> {
    set b | b in Solutions(size, prefix) && |prefix| < |b| && b[|prefix|] < k
  }

  /** The solutions fall apart by their next column. */
  lemma NextColumn(size: nat, prefix: seq<int>, k: int)
    requires |prefix| < size && 0 <= k
    ensures |SolutionsBelow(size, prefix, k + 1)| == |SolutionsBelow(size, prefix, k)| + |Solutions(size, prefix + [k])|
  {
    var below, here := SolutionsBelow(size, prefix, k), Solutions(size, prefix + [k]);
    forall b ensures b in SolutionsBelow(size, prefix, k + 1) <==> b in below || b in here {
      BoardsAre(size, size, b);
      ExtendsBy(b, prefix, k);
    }
    assert SolutionsBelow(size, prefix, k + 1) == below + here;
    assert below * here == {} by {
      forall b | b in here ensures b !in below { ExtendsBy(b, prefix, k); }
    }
  }

  lemma ExtendsBy(b: seq<int>, prefix: seq<int>, k: int)
    ensures prefix + [k] <= b <==> prefix <= b && |prefix| < |b| && b[|prefix|] == k
  {
    if prefix <= b && |prefix| < |b| && b[|prefix|] == k {
      assert b[..|prefix| + 1] == prefix + [k];
    }
    if prefix + [k] <= b {
      assert b[..|prefix|] == (prefix + [k])[..|prefix|] == prefix;
      assert b[|prefix|] == (prefix + [k])[|prefix|];
    }
  }

  lemma AllColumns(size: nat, prefix: seq<int>)
    requires |prefix| < size
    ensures SolutionsBelow(size, prefix, 0) == {}
    ensures SolutionsBelow(size, prefix, size) == Solutions(size, prefix)
  {
    forall b | b in Solutions(size, prefix) ensures |b| == size && 0 <= b[|prefix|] < size {
      BoardsAre(size, size, b);
    }
  }

  /** A prefix with two queens that attack each other leads nowhere. */
  lemma NoSolutions(size: nat, prefix: seq<int>)
    requires !Safe(prefix, |prefix|)
    ensures Solutions(size, prefix) == {}
  {
    var i, j :| 0 <= i < j < |prefix| && Attack(prefix, i, j);
    forall b | b in Solutions(size, prefix) ensures false {
      assert b[i] == prefix[i] && b[j] == prefix[j];
      assert Attack(b, i, j);
    }
  }

  /** A full board is a solution by itself. */
  lemma FullBoard(size: nat, b: seq<int>)
    requires |b| == size && Safe(b, size) && forall i | 0 <= i < size :: 0 <= b[i] < size
    ensures Solutions(size, b) == {b}
  {
    BoardsAre(size, size, b);
    forall x | x in Solutions(size, b) ensures x == b {
      BoardsAre(size, size, x);
    }
  }

  // ------------------------------------------------ the class board

  class Board {
    var list: seq<int>
    var count: int

    constructor (l: seq<int>)
      ensures list == l && count == 0
    {
      list, count := l, 0;
    }

    method InitBoard(size: nat)
      modifies this
      ensures list == old(list) + seq(size, _ => size) && count == old(count)
    {
      for i := 0 to size
        invariant list == old(list) + seq(i, _ => size) && count == old(count)
      {
        list := list + [size];
        assert seq(i + 1, _ => size) == seq(i, _ => size) + [size];
      }
    }

    method UpdateBoard(pos: nat, val: int)
      requires pos < |list|
      modifies this
      ensures list == old(list)[pos := val] && count == old(count)
    {
      list := list[pos := val];
    }

    /** Whether the queen in column `level` is attacked by an earlier one. */
    method CheckBoard(l: seq<int>, level: nat) returns (ok: bool)
      requires level < |l|
      ensures ok <==> forall i | 0 <= i < level :: !Attack(l, i, level)
    {
      for i := 0 to level
        invariant forall j | 0 <= j < i :: !Attack(l, j, level)
      {
        if l[i] == l[level] || l[level] - l[i] == level - i || l[i] - l[level] == level - i {
          assert Attack(l, i, level);
          return false;
        }
      }
      return true;
    }
  }

  /** The first `level` columns are in range and safe. */
  ghost predicate Placed(l: seq<int>, size: nat, level: nat) {
    |l| == size && level <= size && Safe(l, level) && forall i | 0 <= i < level :: 0 <= l[i] < size
  }

  lemma PlaceNext(l: seq<int>, size: nat, level: nat, v: int)
    requires Placed(l, size, level) && level < size && 0 <= v < size
    ensures var l' := l[level := v];
            && l'[..level + 1] == l[..level] + [v]
            && (Placed(l', size, level + 1) <==> forall i | 0 <= i < level :: !Attack(l', i, level))
            && (Safe(l'[..level + 1], level + 1) <==> Placed(l', size, level + 1))
  {
    var l', next := l[level := v], level + 1;
    forall i, j | 0 <= i < j < next
      ensures Attack(l', i, j) == Attack(l'[..next], i, j) && (j < level ==> !Attack(l', i, j)) {
      if j < level { assert !Attack(l, i, j); }
    }
    assert Safe(l', next) <==> forall i | 0 <= i < level :: !Attack(l', i, level);
  }

  /** solve_board counts exactly the solutions that begin with the columns placed; at level 0 those
      that begin with col. */
  method SolveBoard(l: seq<int>, size: nat, level: nat, col: int) returns (count: int)
    requires Placed(l, size, level) && (level == 0 && size > 0 ==> 0 <= col < size)
    ensures count == |Solutions(size, if level == 0 && size > 0 then [col] else l[..level])|
    decreases size - level
  {
    hide Attack, Safe, Solutions, SolutionsBelow;
    var b := new Board(l);
    if level == size {
      assert l[..level] == l;
      FullBoard(size, l);
      return 1;
    } else if level == 0 {
      PlaceNext(l, size, 0, col);
      b.UpdateBoard(0, col);
      var ok := b.CheckBoard(b.list, 0);
      if ok {
        var more := SolveBoard(b.list, size, 1, col);
        b.count := b.count + more;
      }
      assert l[..0] + [col] == [col];
    } else {
      var prefix := l[..level];
      AllColumns(size, prefix);
      for i := 0 to size
        invariant b.list == if i == 0 then l else l[level := i - 1]
        invariant b.count == |SolutionsBelow(size, prefix, i)|
      {
        b.UpdateBoard(level, i);
        assert b.list == l[level := i];
        PlaceNext(l, size, level, i);
        NextColumn(size, prefix, i);
        var ok := b.CheckBoard(b.list, level);
        if ok {
          var more := SolveBoard(b.list, size, level + 1, col);
          b.count := b.count + more;
        } else {
          NoSolutions(size, prefix + [i]);
        }
      }
    }
    count := b.count;
  }

  /** task_create: one task for every second column that the first one leaves open; each task works
      on the board as it was when the task was created. */
  method TaskCreate(l: seq<int>, size: nat, col: int) returns (total: int)
    requires |l| == size >= 2 && 0 <= col < size
    ensures total == |Solutions(size, [col])|
  {
    hide Attack, Safe, Placed, Solutions, SolutionsBelow;
    NothingPlaced(l, size);
    var b1 := new Board(l);
    PlaceNext(l, size, 0, col);
    b1.UpdateBoard(0, col);
    assert l[..0] + [col] == [col];
    var subCount := new int[size];
    var ok := b1.CheckBoard(b1.list, 0);
    if ok {
      var first := b1.list;
      var b2 := new Board(first);
      for i := 0 to size
        invariant b2.list == if i == 0 then first else first[1 := i - 1]
        invariant forall k | 0 <= k < i :: subCount[k] == |Solutions(size, [col] + [k])|
      {
        b2.UpdateBoard(1, i);
        assert b2.list == first[1 := i];
        PlaceNext(first, size, 1, i);
        var open := b2.CheckBoard(b2.list, 1);
        if open {
          subCount[i] := SolveBoard(b2.list, size, 2, col);
        } else {
          NoSolutions(size, [col] + [i]);
          subCount[i] := 0;
        }
      }
    }
    total := SumOf(subCount, size, [col]);
  }

  lemma NothingPlaced(l: seq<int>, size: nat)
    requires |l| == size
    ensures Placed(l, size, 0)
  {
  }

  /** The loop that adds the counts of the tasks. */
  method SumOf(subCount: array<int>, size: nat, ghost prefix: seq<int>) returns (total: int)
    requires subCount.Length == size && |prefix| < size && forall k | 0 <= k < size ::
               subCount[k] == |Solutions(size, prefix + [k])|
    ensures total == |Solutions(size, prefix)|
  {
    hide Solutions, SolutionsBelow;
    AllColumns(size, prefix);
    total := 0;
    for i := 0 to size
      invariant total == |SolutionsBelow(size, prefix, i)|
    {
      NextColumn(size, prefix, i);
      total := total + subCount[i];
    }
  }

  /** The main program counts the solutions of the puzzle, with either task level. */
  method CountSolutions(size: nat, taskLevel: int) returns (total: int)
    requires size >= 2
    ensures total == |Solutions(size, [])|
  {
    hide Solutions, Placed;
    ghost var none: seq<int> := [];
    var subCount := new int[size];
    for i := 0 to size
      invariant forall k | 0 <= k < i :: subCount[k] == |Solutions(size, none + [k])|
    {
      assert none + [i] == [i];
      var board := new Board([]);
      board.InitBoard(size);
      if taskLevel == 0 {
        NothingPlaced(board.list, size);
        subCount[i] := SolveBoard(board.list, size, 0, i);
      } else {
        subCount[i] := TaskCreate(board.list, size, i);
      }
    }
    total := SumOf(subCount, size, none);
  }
}
