/**
 * Cursor movement on a map of `rows` × `cols` tiles, as pure transitions of the
 * cursor position. Each function gives the boolean the source's select call
 * returns together with the cursor position afterwards; the methods of
 * `Gameplay.WorldMap` are proved to follow them.
 */
module Navigation {
  import opened Common

  /** A cursor position: `x` is the column, `y` the row. */
  datatype Pos = Pos(x: int, y: int)

  /** Outcome of a selection request: whether it took effect, and where the cursor is afterwards. */
  datatype Move = Move(ok: bool, cursor: Pos)

  predicate InBounds(cols: int, rows: int, p: Pos)
  {
    0 <= p.x < cols && 0 <= p.y < rows
  }

  /** Position of a cell in row-major order. */
  function Index(cols: int, p: Pos): int
  {
    p.y * cols + p.x
  }

  /** `select(x, y)`: refuse a target off the map, otherwise move there. */
  function Select(cols: int, rows: int, cur: Pos, x: int, y: int): (m: Move)
    ensures m.ok <==> InBounds(cols, rows, Pos(x, y))
    ensures m.cursor == if m.ok then Pos(x, y) else cur
  {
    if x < 0 || y < 0 || x >= cols || y >= rows then Move(false, cur) else Move(true, Pos(x, y))
  }

  /** `selectRel(dx, dy)`: the same bounds check on the cursor shifted by (dx, dy). */
  function SelectRel(cols: int, rows: int, cur: Pos, dx: int, dy: int): (m: Move)
    ensures m.ok <==> InBounds(cols, rows, Pos(cur.x + dx, cur.y + dy))
    ensures m.cursor == if m.ok then Pos(cur.x + dx, cur.y + dy) else cur
  {
    Select(cols, rows, cur, cur.x + dx, cur.y + dy)
  }

  /**
   * `selectLeftWrap` as the source has it. Its wrapping branch always targets
   * row -1, so whenever it succeeds it has moved one column to the right.
   */
  function LeftWrap(cols: int, rows: int, cur: Pos): (m: Move)
    ensures InBounds(cols, rows, cur) ==> InBounds(cols, rows, m.cursor)
    ensures m.ok ==> m.cursor == Pos(cur.x + 1, cur.y)
  {
    var newX, newY := cur.x - 1, cur.y - 1;
    if newX < 0 && newY < 0 then Select(cols, rows, cur, cols - 1, newY)
    else SelectRel(cols, rows, cur, 1, 0)
  }

  /** `selectRightWrap`: at the right edge go to column 0 of the next row, modulo the row count. */
  function RightWrap(cols: int, rows: int, cur: Pos): (m: Move)
    requires rows > 0
    ensures InBounds(cols, rows, cur) ==> m.ok && InBounds(cols, rows, m.cursor)
  {
    var newX, newY := cur.x + 1, cur.y + 1;
    if newX >= cols then Select(cols, rows, cur, 0, JavaRem(newY, rows))
    else SelectRel(cols, rows, cur, 1, 0)
  }

  /**
   * The left wrap mirrored from `RightWrap`: at the left edge go to the last
   * column of the previous row, and from (0, 0) to the last cell.
   */
  function LeftWrapIntended(cols: int, rows: int, cur: Pos): (m: Move)
    requires rows > 0
    ensures InBounds(cols, rows, cur) ==>
      m.ok && InBounds(cols, rows, m.cursor) &&
      Index(cols, m.cursor) == (Index(cols, cur) - 1 + rows * cols) % (rows * cols)
  {
    var newX, newY := cur.x - 1, cur.y - 1;
    PredecessorArithmetic(cols, rows, cur);
    if newX < 0 then Select(cols, rows, cur, cols - 1, JavaRem(newY + rows, rows))
    else SelectRel(cols, rows, cur, -1, 0)
  }

  lemma MulSucc(a: int, c: int)
    ensures (a + 1) * c == a * c + c
  {
  }

  lemma MulMonotone(a: int, b: int, c: int)
    requires 0 <= a <= b && 0 <= c
    ensures a * c <= b * c
  {
    assert b * c - a * c == (b - a) * c;
  }

  lemma ModSmall(a: int, n: int)
    requires 0 <= a < n
    ensures a % n == a
  {
  }

  lemma ModSelf(n: int)
    requires n > 0
    ensures n % n == 0
  {
  }

  lemma ModShift(a: int, n: int)
    requires 0 <= a < n
    ensures (a + n) % n == a
  {
  }

  /** An in-bounds cell has an index in [y * cols, (y + 1) * cols) and below rows * cols. */
  lemma IndexRange(cols: int, rows: int, cur: Pos)
    requires InBounds(cols, rows, cur)
    ensures 0 <= cur.y * cols <= Index(cols, cur) < (cur.y + 1) * cols <= rows * cols
    ensures (cur.y + 1) * cols == cur.y * cols + cols
  {
    MulSucc(cur.y, cols);
    MulMonotone(cur.y + 1, rows, cols);
    MulMonotone(0, cur.y, cols);
  }

  /** The row-major index arithmetic behind `LeftWrapIntended`. */
  lemma PredecessorArithmetic(cols: int, rows: int, cur: Pos)
    requires rows > 0
    ensures InBounds(cols, rows, cur) ==> var n := rows * cols;
      (cur.x > 0 ==> Index(cols, Pos(cur.x - 1, cur.y)) == (Index(cols, cur) - 1 + n) % n) &&
      (cur.x == 0 && cur.y > 0 ==> Index(cols, Pos(cols - 1, cur.y - 1)) == (Index(cols, cur) - 1 + n) % n) &&
      (cur.x == 0 && cur.y == 0 ==> Index(cols, Pos(cols - 1, rows - 1)) == (Index(cols, cur) - 1 + n) % n) &&
      JavaRem(cur.y - 1 + rows, rows) == (if cur.y > 0 then cur.y - 1 else rows - 1)
  {
    if InBounds(cols, rows, cur) {
      var n := rows * cols;
      var i := Index(cols, cur);
      IndexRange(cols, rows, cur);
      if cur.y > 0 {
        ModShift(cur.y - 1, rows);
      } else {
        ModSmall(rows - 1, rows);
      }
      if cur.x > 0 {
        ModShift(i - 1, n);
      } else if cur.y > 0 {
        MulSucc(cur.y - 1, cols);
        ModShift(i - 1, n);
      } else {
        MulSucc(rows - 1, cols);
        ModSmall(n - 1, n);
      }
    }
  }

  /** No selection or move takes an in-bounds cursor off the map. */
  lemma MovesStayInBounds(cols: int, rows: int, cur: Pos, x: int, y: int, dx: int, dy: int)
    requires InBounds(cols, rows, cur)
    ensures InBounds(cols, rows, Select(cols, rows, cur, x, y).cursor)
    ensures InBounds(cols, rows, SelectRel(cols, rows, cur, dx, dy).cursor)
    ensures InBounds(cols, rows, LeftWrap(cols, rows, cur).cursor)
    ensures InBounds(cols, rows, RightWrap(cols, rows, cur).cursor)
  {
  }

  /** From any in-bounds cell, `selectRightWrap` succeeds and steps to the row-major successor. */
  lemma RightWrapIsRowMajorSuccessor(cols: int, rows: int, cur: Pos)
    requires InBounds(cols, rows, cur)
    ensures var m := RightWrap(cols, rows, cur);
      m.ok && InBounds(cols, rows, m.cursor) &&
      Index(cols, m.cursor) == (Index(cols, cur) + 1) % (rows * cols)
  {
    var n := rows * cols;
    var i := Index(cols, cur);
    IndexRange(cols, rows, cur);
    var m := RightWrap(cols, rows, cur);
    if cur.x + 1 < cols {
      assert m == Move(true, Pos(cur.x + 1, cur.y));
      assert Index(cols, m.cursor) == i + 1;
      ModSmall(i + 1, n);
    } else if cur.y + 1 < rows {
      ModSmall(cur.y + 1, rows);
      assert m == Move(true, Pos(0, cur.y + 1));
      assert Index(cols, m.cursor) == i + 1;
      IndexRange(cols, rows, Pos(0, cur.y + 1));
      ModSmall(i + 1, n);
    } else {
      ModSelf(rows);
      assert m == Move(true, Pos(0, 0));
      assert i + 1 == n;
      ModSelf(n);
    }
  }

  /**
   * `selectLeftWrap` as written: from (0, 0) it fails and leaves the cursor
   * alone; from every other cell it does what `selectRight` does, so it also
   * fails in the last column.
   */
  lemma LeftWrapStepsRight(cols: int, rows: int, cur: Pos)
    requires InBounds(cols, rows, cur)
    ensures cur == Pos(0, 0) ==> LeftWrap(cols, rows, cur) == Move(false, cur)
    ensures cur != Pos(0, 0) ==> LeftWrap(cols, rows, cur) == SelectRel(cols, rows, cur, 1, 0)
  {
  }

  /**
   * On a 3 × 3 map, `selectLeftWrap` from (1, 0) lands on (2, 0) and not on
   * (0, 0); from (2, 0), in the last column, it fails.
   */
  lemma LeftWrapMovesAwayFromPredecessor()
    ensures LeftWrap(3, 3, Pos(1, 0)) == Move(true, Pos(2, 0))
    ensures LeftWrap(3, 3, Pos(2, 0)) == Move(false, Pos(2, 0))
    ensures LeftWrapIntended(3, 3, Pos(1, 0)) == Move(true, Pos(0, 0))
  {
  }

  /**
   * Where `selectRightWrap` goes: one column right, or column 0 of the next row
   * at the right edge, or (0, 0) after the last cell.
   */
  lemma RightWrapTarget(cols: int, rows: int, cur: Pos)
    requires InBounds(cols, rows, cur)
    ensures RightWrap(cols, rows, cur) == Move(true,
      if cur.x + 1 < cols then Pos(cur.x + 1, cur.y)
      else if cur.y + 1 < rows then Pos(0, cur.y + 1)
      else Pos(0, 0))
  {
    if cur.y + 1 < rows {
      ModSmall(cur.y + 1, rows);
    } else {
      ModSelf(rows);
    }
  }

  /**
   * Where the mirrored left wrap goes: one column left, or the last column of
   * the previous row at the left edge, or the last cell from (0, 0).
   */
  lemma LeftWrapIntendedTarget(cols: int, rows: int, cur: Pos)
    requires InBounds(cols, rows, cur)
    ensures LeftWrapIntended(cols, rows, cur) == Move(true,
      if cur.x > 0 then Pos(cur.x - 1, cur.y)
      else if cur.y > 0 then Pos(cols - 1, cur.y - 1)
      else Pos(cols - 1, rows - 1))
  {
    if cur.y > 0 {
      ModShift(cur.y - 1, rows);
    } else {
      ModSmall(rows - 1, rows);
    }
  }

  /** The two wraps undo each other on every in-bounds cell. */
  lemma WrapsAreInverse(cols: int, rows: int, cur: Pos)
    requires InBounds(cols, rows, cur)
    ensures LeftWrapIntended(cols, rows, RightWrap(cols, rows, cur).cursor).cursor == cur
    ensures RightWrap(cols, rows, LeftWrapIntended(cols, rows, cur).cursor).cursor == cur
  {
    RightWrapTarget(cols, rows, cur);
    LeftWrapIntendedTarget(cols, rows, cur);
    LeftWrapIntendedTarget(cols, rows, RightWrap(cols, rows, cur).cursor);
    RightWrapTarget(cols, rows, LeftWrapIntended(cols, rows, cur).cursor);
  }
}
