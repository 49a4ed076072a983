/** The spiral walk over the tiles of a frame (datapro1/src/dp1_snail_path.cpp, dp1_snail_path.h). */
module SnailPath {
  import opened Sequences

  datatype Cell = Cell(row: nat, col: nat)

  datatype Dir = Left | Up | Right | Down

  /** Rows `top..bottom` and columns `left..right`, the ends excluded. */
  datatype Rect = Rect(top: nat, bottom: nat, left: nat, right: nat)

  predicate Empty(r: Rect) {
    r.top >= r.bottom || r.left >= r.right
  }

  predicate Inside(c: Cell, r: Rect) {
    r.top <= c.row < r.bottom && r.left <= c.col < r.right
  }

  // ----- the walk, ring side by ring side

  /** The number of cells on the side that is walked in direction `d`. */
  function SideLength(d: Dir, r: Rect): nat
    requires !Empty(r)
  {
    if d.Left? || d.Right? then r.right - r.left else r.bottom - r.top
  }

  function SideCell(d: Dir, r: Rect, i: nat): Cell
    requires !Empty(r) && i < SideLength(d, r)
  {
    match d
    case Left => Cell(r.bottom - 1, r.right - 1 - i)
    case Up => Cell(r.bottom - 1 - i, r.left)
    case Right => Cell(r.top, r.left + i)
    case Down => Cell(r.top + i, r.right - 1)
  }

  function Side(d: Dir, r: Rect): (s: seq<Cell>)
    requires !Empty(r)
    ensures |s| == SideLength(d, r)
    ensures forall i :: 0 <= i < |s| ==> s[i] == SideCell(d, r, i)
  {
    seq(SideLength(d, r), i requires 0 <= i < SideLength(d, r) => SideCell(d, r, i))
  }

  function Turn(d: Dir): Dir {
    match d case Left => Up case Up => Right case Right => Down case Down => Left
  }

  /** The rectangle without the side that was walked. */
  function Cut(d: Dir, r: Rect): Rect
    requires !Empty(r)
  {
    match d
    case Left => r.(bottom := r.bottom - 1)
    case Up => r.(left := r.left + 1)
    case Right => r.(top := r.top + 1)
    case Down => r.(right := r.right - 1)
  }

  /** Strips the sides of `r` one after the other, the first one in direction `d`. */
  function Walk(d: Dir, r: Rect): seq<Cell>
    decreases r.bottom + r.right - r.top - r.left
  {
    if Empty(r) then [] else Side(d, r) + Walk(Turn(d), Cut(d, r))
  }

  function Whole(rows: nat, cols: nat): Rect {
    Rect(0, rows, 0, cols)
  }

  /** The path: the walk from the outside, reversed. */
  function Path(rows: nat, cols: nat): seq<Cell> {
    Reverse(Walk(Left, Whole(rows, cols)))
  }

  // ----- the source's walker

  /** Standing on the side walked in direction `d` after its first `k` cells; with `k == 0`, one step
      before its first cell. */
  ghost predicate Standing(d: Dir, r: Rect, k: nat, row: nat, col: nat) {
    match d
    case Left => row + 1 == r.bottom && col + k == r.right
    case Up => col == r.left && row + k == r.bottom
    case Right => row == r.top && col + 1 == r.left + k
    case Down => col + 1 == r.right && row + 1 == r.top + k
  }

  /** Exactly `from..to` is unmarked. */
  ghost predicate Unmarked(marks: seq<bool>, from: nat, to: nat) {
    forall i :: 0 <= i < |marks| ==> (marks[i] <==> !(from <= i < to))
  }

  class Snail {
    const numRows: nat
    const numCols: nat
    var markedRows: seq<bool>
    var markedCols: seq<bool>

    ghost predicate Valid()
      reads this
    {
      numRows > 0 && numCols > 0 && |markedRows| == numRows && |markedCols| == numCols
    }

    /** The unmarked rows and columns are those of one rectangle. */
    ghost predicate Marks(r: Rect)
      reads this
    {
      && Valid()
      && r.top <= r.bottom <= numRows && r.left <= r.right <= numCols
      && Unmarked(markedRows, r.top, r.bottom) && Unmarked(markedCols, r.left, r.right)
    }

    constructor (numRows: nat, numCols: nat)
      requires numRows > 0 && numCols > 0
      ensures Valid() && this.numRows == numRows && this.numCols == numCols
      ensures Marks(Whole(numRows, numCols))
    {
      this.numRows, this.numCols := numRows, numCols;
      markedRows, markedCols := seq(numRows, _ => false), seq(numCols, _ => false);
    }

    predicate CanMoveLeft(currCol: nat)
      requires currCol <= |markedCols|
      reads this
    {
      currCol != 0 && !markedCols[currCol - 1]
    }

    predicate CanMoveUp(currRow: nat)
      requires currRow <= |markedRows|
      reads this
    {
      currRow != 0 && !markedRows[currRow - 1]
    }

    predicate CanMoveRight(currCol: nat)
      requires |markedCols| == numCols
      reads this
    {
      currCol + 1 < numCols && !markedCols[currCol + 1]
    }

    predicate CanMoveDown(currRow: nat)
      requires |markedRows| == numRows
      reads this
    {
      currRow + 1 < numRows && !markedRows[currRow + 1]
    }

    /** The guards see the end of the side that is being walked. */
    lemma CanMove(d: Dir, r: Rect, k: nat, row: nat, col: nat)
      requires Marks(r) && !Empty(r) && Standing(d, r, k, row, col) && k <= SideLength(d, r)
      ensures d.Left? ==> (CanMoveLeft(col) <==> k < SideLength(d, r))
      ensures d.Up? ==> (CanMoveUp(row) <==> k < SideLength(d, r))
      ensures d.Right? ==> (CanMoveRight(col) <==> k < SideLength(d, r))
      ensures d.Down? ==> (CanMoveDown(row) <==> k < SideLength(d, r))
    {
    }

    /** After a mark, the guard of the next direction sees whether anything is left. */
    lemma CanGoOn(d: Dir, r: Rect, row: nat, col: nat)
      requires !Empty(r) && Standing(d, r, SideLength(d, r), row, col) && Marks(Cut(d, r))
      ensures Standing(Turn(d), Cut(d, r), 0, row, col)
      ensures d.Left? ==> (CanMoveUp(row) <==> !Empty(Cut(d, r)))
      ensures d.Up? ==> (CanMoveRight(col) <==> !Empty(Cut(d, r)))
      ensures d.Right? ==> (CanMoveDown(row) <==> !Empty(Cut(d, r)))
      ensures d.Down? ==> (CanMoveLeft(col) <==> !Empty(Cut(d, r)))
    {
    }

    /** One turn of the loop: a step along the side, or a mark and a turn. */
    method Advance(moveDir: Dir, row: nat, col: nat, res: seq<Cell>, ghost r: Rect, ghost k: nat)
      returns (moveDir': Dir, row': nat, col': nat, res': seq<Cell>, moveOn: bool, ghost r': Rect, ghost k': nat)
      requires Marks(r) && !Empty(r) && Standing(moveDir, r, k, row, col) && k <= SideLength(moveDir, r)
      modifies this
      ensures Marks(r') && Standing(moveDir', r', k', row', col') && moveOn == !Empty(r')
      ensures if k < SideLength(moveDir, r)
              then moveDir' == moveDir && r' == r && k' == k + 1 && res' == res + [SideCell(moveDir, r, k)]
              else moveDir' == Turn(moveDir) && r' == Cut(moveDir, r) && k' == 0 && res' == res
    {
      moveDir', row', col', res', moveOn, r', k' := moveDir, row, col, res, true, r, k;
      CanMove(moveDir, r, k, row, col);
      var turned := false;
      match moveDir {
        case Left =>
          if CanMoveLeft(col) {
            col' := col - 1;
          } else {
            markedRows := markedRows[row := true];
            turned := true;
          }
        case Up =>
          if CanMoveUp(row) {
            row' := row - 1;
          } else {
            markedCols := markedCols[col := true];
            turned := true;
          }
        case Right =>
          if CanMoveRight(col) {
            col' := col + 1;
          } else {
            markedRows := markedRows[row := true];
            turned := true;
          }
        case Down =>
          if CanMoveDown(row) {
            row' := row + 1;
          } else {
            markedCols := markedCols[col := true];
            turned := true;
          }
      }
      if turned {
        r', k', moveDir' := Cut(moveDir, r), 0, Turn(moveDir);
        CanGoOn(moveDir, r, row, col);
        match moveDir' {
          case Left => moveOn := CanMoveLeft(col);
          case Up => moveOn := CanMoveUp(row);
          case Right => moveOn := CanMoveRight(col);
          case Down => moveOn := CanMoveDown(row);
        }
      } else {
        k' := k + 1;
        res' := res + [Cell(row', col')];
      }
    }

    method GetPath() returns (path: seq<Cell>)
      requires Valid()
      modifies this
      ensures Valid()
      ensures path == Path(numRows, numCols)
    {
      markedRows, markedCols := seq(numRows, _ => false), seq(numCols, _ => false);
      var currRow: nat, currCol: nat := numRows - 1, numCols - 1;
      var res := [Cell(currRow, currCol)];
      var moveDir := Left;
      var moveOn := true;
      ghost var r, k: nat := Whole(numRows, numCols), 1;
      ghost var goal := Walk(Left, r);
      assert Side(moveDir, r) == res + Side(moveDir, r)[1..];
      while moveOn
        invariant Marks(r) && Standing(moveDir, r, k, currRow, currCol)
        invariant moveOn == !Empty(r)
        invariant Remaining(goal, moveDir, r, k, res)
        decreases r.bottom + r.right - r.top - r.left, if Empty(r) then 0 else SideLength(moveDir, r) - k
      {
        ghost var d0, r0, k0, res0 := moveDir, r, k, res;
        moveDir, currRow, currCol, res, moveOn, r, k := Advance(moveDir, currRow, currCol, res, r, k);
        NextGoal(d0, r0, k0, res0, moveDir, r, k, res, goal);
      }
      path := Reverse(res);
    }
  }

  /** What is collected, followed by the rest of the side and of the walk, is the whole walk. */
  ghost predicate Remaining(goal: seq<Cell>, d: Dir, r: Rect, k: nat, res: seq<Cell>) {
    if Empty(r) then goal == res
    else k <= SideLength(d, r) && goal == res + Side(d, r)[k..] + Walk(Turn(d), Cut(d, r))
  }

  lemma NextGoal(d0: Dir, r0: Rect, k0: nat, res0: seq<Cell>, d: Dir, r: Rect, k: nat, res: seq<Cell>, goal: seq<Cell>)
    requires !Empty(r0) && Remaining(goal, d0, r0, k0, res0)
    requires if k0 < SideLength(d0, r0) then d == d0 && r == r0 && k == k0 + 1 && res == res0 + [SideCell(d0, r0, k0)]
             else d == Turn(d0) && r == Cut(d0, r0) && k == 0 && res == res0
    ensures Remaining(goal, d, r, k, res)
  {
    hide SideCell;
    if k0 < SideLength(d0, r0) {
      Assoc(res0, [SideCell(d0, r0, k0)], Side(d0, r0)[k0 + 1..]);
      assert Side(d0, r0)[k0..] == [SideCell(d0, r0, k0)] + Side(d0, r0)[k0 + 1..];
    } else {
      assert Side(d0, r0)[k0..] == [];
      if !Empty(r) {
        assert Side(d, r)[0..] == Side(d, r);
        Assoc(res, Side(d, r), Walk(Turn(d), Cut(d, r)));
      }
    }
  }

  // ----- every cell once

  ghost predicate Distinct<T>(s: seq<T>) {
    forall i, j :: 0 <= i < j < |s| ==> s[i] != s[j]
  }

  lemma SideCells(d: Dir, r: Rect, c: Cell)
    requires !Empty(r)
    ensures Distinct(Side(d, r))
    ensures c in Side(d, r) <==> Inside(c, r) && !Inside(c, Cut(d, r))
  {
    if Inside(c, r) && !Inside(c, Cut(d, r)) {
      var i := match d
        case Left => r.right - 1 - c.col
        case Up => r.bottom - 1 - c.row
        case Right => c.col - r.left
        case Down => c.row - r.top;
      assert Side(d, r)[i] == c;
    }
  }

  lemma {:induction false} WalkCells(d: Dir, r: Rect, c: Cell)
    ensures c in Walk(d, r) <==> Inside(c, r)
    decreases r.bottom + r.right - r.top - r.left
  {
    if !Empty(r) {
      SideCells(d, r, c);
      WalkCells(Turn(d), Cut(d, r), c);
    }
  }

  lemma DistinctAppend<T>(a: seq<T>, b: seq<T>)
    requires Distinct(a) && Distinct(b) && forall x :: x in a ==> x !in b
    ensures Distinct(a + b)
  {
    forall i, j | 0 <= i < j < |a + b| ensures (a + b)[i] != (a + b)[j] {
      if i < |a| <= j {
        assert a[i] in a && b[j - |a|] in b;
      }
    }
  }

  lemma {:induction false} WalkDistinct(d: Dir, r: Rect)
    ensures Distinct(Walk(d, r))
    decreases r.bottom + r.right - r.top - r.left
  {
    if !Empty(r) {
      var d', r' := Turn(d), Cut(d, r);
      WalkDistinct(d', r');
      forall c | c in Side(d, r) ensures c !in Walk(d', r') {
        SideCells(d, r, c);
        WalkCells(d', r', c);
      }
      SideCells(d, r, Cell(0, 0));
      DistinctAppend(Side(d, r), Walk(d', r'));
    }
  }

  lemma {:induction false} WalkLength(d: Dir, r: Rect)
    requires r.top <= r.bottom && r.left <= r.right
    ensures |Walk(d, r)| == (r.bottom - r.top) * (r.right - r.left)
    decreases r.bottom + r.right - r.top - r.left
  {
    if Empty(r) {
      assert r.bottom - r.top == 0 || r.right - r.left == 0;
    } else {
      WalkLength(Turn(d), Cut(d, r));
      OneLess(r.bottom - r.top, r.right - r.left);
    }
  }

  lemma OneLess(h: nat, w: nat)
    ensures h > 0 ==> (h - 1) * w + w == h * w
    ensures w > 0 ==> h * (w - 1) + h == h * w
  {
  }

  // ----- neighbours

  predicate Adjacent(a: Cell, b: Cell) {
    (a.row == b.row && (a.col == b.col + 1 || b.col == a.col + 1)) ||
    (a.col == b.col && (a.row == b.row + 1 || b.row == a.row + 1))
  }

  ghost predicate Connected(s: seq<Cell>) {
    forall i :: 0 <= i < |s| - 1 ==> Adjacent(s[i], s[i + 1])
  }

  lemma {:induction false} WalkConnected(d: Dir, r: Rect)
    ensures Connected(Walk(d, r))
    ensures !Empty(r) ==> Walk(d, r)[0] == SideCell(d, r, 0)
    decreases r.bottom + r.right - r.top - r.left
  {
    if !Empty(r) {
      var s, t, w := Side(d, r), Walk(Turn(d), Cut(d, r)), Walk(d, r);
      WalkConnected(Turn(d), Cut(d, r));
      forall i | 0 <= i < |w| - 1 ensures Adjacent(w[i], w[i + 1]) {
        if i >= |s| {
          assert w[i] == t[i - |s|] && w[i + 1] == t[i - |s| + 1];
        } else if i == |s| - 1 {
          assert w[i] == SideCell(d, r, i) && w[i + 1] == t[0] == SideCell(Turn(d), Cut(d, r), 0);
        } else {
          assert w[i] == SideCell(d, r, i) && w[i + 1] == SideCell(d, r, i + 1);
        }
      }
    }
  }

  // ----- rings

  function Min(a: int, b: int): int {
    if a <= b then a else b
  }

  /** The number of rings around a cell. */
  function Depth(c: Cell, rows: nat, cols: nat): int {
    Min(Min(c.row, c.col), Min(rows - 1 - c.row, cols - 1 - c.col))
  }

  /** The rectangle that is left when a side in direction `d` of the ring of depth `k` comes next. */
  ghost predicate InRing(d: Dir, r: Rect, k: nat, rows: nat, cols: nat) {
    && r.top == k + (if d.Down? then 1 else 0)
    && r.bottom + k + (if d.Left? then 0 else 1) == rows
    && r.left == k + (if d.Right? || d.Down? then 1 else 0)
    && r.right + k == cols
  }

  ghost predicate DepthsAscend(s: seq<Cell>, k: nat, rows: nat, cols: nat) {
    && (forall i :: 0 <= i < |s| ==> Depth(s[i], rows, cols) >= k)
    && (forall i, j :: 0 <= i < j < |s| ==> Depth(s[i], rows, cols) <= Depth(s[j], rows, cols))
  }

  lemma SideDepth(d: Dir, r: Rect, k: nat, rows: nat, cols: nat, i: nat)
    requires InRing(d, r, k, rows, cols) && !Empty(r) && i < SideLength(d, r)
    ensures Depth(Side(d, r)[i], rows, cols) == k
  {
  }

  lemma {:induction false} WalkByRings(d: Dir, r: Rect, k: nat, rows: nat, cols: nat)
    requires InRing(d, r, k, rows, cols)
    ensures DepthsAscend(Walk(d, r), k, rows, cols)
    decreases r.bottom + r.right - r.top - r.left
  {
    if !Empty(r) {
      var k' := if d.Down? then k + 1 else k;
      WalkByRings(Turn(d), Cut(d, r), k', rows, cols);
      forall i | 0 <= i < |Side(d, r)| ensures Depth(Side(d, r)[i], rows, cols) == k {
        SideDepth(d, r, k, rows, cols, i);
      }
      AscendAppend(Side(d, r), Walk(Turn(d), Cut(d, r)), k, k', rows, cols);
    }
  }

  lemma AscendAppend(s: seq<Cell>, t: seq<Cell>, k: nat, k': nat, rows: nat, cols: nat)
    requires forall i :: 0 <= i < |s| ==> Depth(s[i], rows, cols) == k
    requires k <= k' && DepthsAscend(t, k', rows, cols)
    ensures DepthsAscend(s + t, k, rows, cols)
  {
    hide Depth;
    var w := s + t;
    forall i | 0 <= i < |w|
      ensures if i < |s| then Depth(w[i], rows, cols) == k else Depth(w[i], rows, cols) == Depth(t[i - |s|], rows, cols)
    {
    }
  }

  // ----- the path

  /** The path visits each cell exactly once. */
  lemma PathVisitsAll(rows: nat, cols: nat)
    requires rows > 0 && cols > 0
    ensures var p := Path(rows, cols);
            |p| == rows * cols && Distinct(p) && forall c: Cell :: c in p <==> c.row < rows && c.col < cols
  {
    hide Walk;
    var r := Whole(rows, cols);
    var w := Walk(Left, r);
    WalkLength(Left, r);
    WalkDistinct(Left, r);
    ReversedOrder(w);
    forall c: Cell ensures c in Path(rows, cols) <==> c.row < rows && c.col < cols {
      WalkCells(Left, r, c);
      ReverseMembers(w, c);
    }
  }

  /** The path always steps to a neighbour and ends in the last row and column. */
  lemma PathSteps(rows: nat, cols: nat)
    requires rows > 0 && cols > 0
    ensures var p := Path(rows, cols);
            p != [] && Connected(p) && p[|p| - 1] == Cell(rows - 1, cols - 1)
  {
    hide Walk, Adjacent, Connected;
    var r := Whole(rows, cols);
    var w, p := Walk(Left, r), Path(rows, cols);
    WalkConnected(Left, r);
    WalkCells(Left, r, Cell(0, 0));
    ReversedConnected(w);
    assert p[|w| - 1] == w[0];
  }

  /** Seen from its end, the path first runs along the last row to the left, and then up the first column. */
  lemma PathTurns(rows: nat, cols: nat, i: nat)
    requires rows > 0 && cols > 0 && i < cols + rows - 1
    ensures var p := Path(rows, cols);
            && i < |p|
            && p[|p| - 1 - i] == if i < cols then Cell(rows - 1, cols - 1 - i) else Cell(rows - 1 - (i - cols + 1), 0)
  {
    var r := Whole(rows, cols);
    var r' := Cut(Left, r);
    assert Walk(Left, r) == Side(Left, r) + Walk(Up, r');
    if i >= cols {
      assert Walk(Up, r') == Side(Up, r') + Walk(Right, Cut(Up, r'));
    }
    hide Walk;
    assert Path(rows, cols)[|Path(rows, cols)| - 1 - i] == Walk(Left, r)[i];
  }

  lemma ReversedConnected(s: seq<Cell>)
    requires Connected(s)
    ensures Connected(Reverse(s))
  {
    hide Adjacent;
    var p, n := Reverse(s), |s|;
    forall i | 0 <= i < n - 1 ensures Adjacent(p[i], p[i + 1]) {
      var j := n - 2 - i;
      assert p[i] == s[j + 1] && p[i + 1] == s[j];
      AdjacentSymmetric(s[j], s[j + 1]);
    }
  }

  lemma AdjacentSymmetric(a: Cell, b: Cell)
    ensures Adjacent(a, b) == Adjacent(b, a)
  {
  }

  /** The path never goes from a ring to one that lies deeper. */
  lemma PathByRings(rows: nat, cols: nat)
    ensures var p := Path(rows, cols);
            forall i, j :: 0 <= i < j < |p| ==> Depth(p[i], rows, cols) >= Depth(p[j], rows, cols)
  {
    hide Walk, Depth;
    var w, p := Walk(Left, Whole(rows, cols)), Path(rows, cols);
    WalkByRings(Left, Whole(rows, cols), 0, rows, cols);
    var n := |w|;
    forall i, j | 0 <= i < j < n ensures Depth(p[i], rows, cols) >= Depth(p[j], rows, cols) {
      assert p[i] == w[n - 1 - i] && p[j] == w[n - 1 - j];
    }
  }

  lemma ReversedOrder<T>(s: seq<T>)
    requires Distinct(s)
    ensures Distinct(Reverse(s))
  {
    var p, n := Reverse(s), |s|;
    forall i, j | 0 <= i < j < n ensures p[i] != p[j] {
      assert p[i] == s[n - 1 - i] && p[j] == s[n - 1 - j];
    }
  }

  lemma ReverseMembers<T>(s: seq<T>, x: T)
    ensures x in Reverse(s) <==> x in s
  {
    if x in s {
      var i :| 0 <= i < |s| && s[i] == x;
      assert Reverse(s)[|s| - 1 - i] == x;
    }
  }
}
