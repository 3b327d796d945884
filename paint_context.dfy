/**
 * The clipping paint context of fsel/lib/paint_context.py (fsel/fsel.py
 * carries an identical older copy): a logical cursor and a clip rectangle
 * through which strings and blank runs reach the terminal. The terminal is
 * reduced to the trace of operations sent to it, and a small cell semantics
 * of that trace says what ends up on screen.
 */
module PaintContext {
  import opened PyStr

  /** `sys.maxsize` on a 64-bit build: where the cursor starts. */
  const MAXSIZE: int := 0x7fff_ffff_ffff_ffff

  /**
   * What the terminal receives: a cursor move, text, or an erase of `n`
   * cells from the cursor (ECH, `CSI n X`, section 8.3.38 of ECMA-48).
   */
  datatype Op = MoveTo(x: int, y: int) | Write(text: string) | Erase(n: int)

  /** The clip rectangle `[minX, maxX) x [minY, maxY)`. */
  datatype Clip = Clip(minX: int, minY: int, maxX: int, maxY: int) {
    predicate Contains(x: int, y: int) {
      minX <= x < maxX && minY <= y < maxY
    }
  }

  /** The terminal, reduced to the operations sent to it, in order. */
  class Screen {
    var out: seq<Op>

    constructor ()
      ensures out == []
    {
      out := [];
    }

    /** `Screen.goto(x, y)`. */
    method Goto(x: int, y: int)
      modifies this
      ensures out == old(out) + [MoveTo(x, y)]
    {
      out := out + [MoveTo(x, y)];
    }

    /** `Screen.wr(s)` for text. */
    method Wr(s: string)
      modifies this
      ensures out == old(out) + [Write(s)]
    {
      out := out + [Write(s)];
    }

    /** `Screen.wr("\x1b[%dX" % n)`. */
    method EraseChars(n: int)
      modifies this
      ensures out == old(out) + [Erase(n)]
    {
      out := out + [Erase(n)];
    }
  }

  // ---------------------------------------------------------------------
  // What each operation sends
  // ---------------------------------------------------------------------

  /** `goto` moves the terminal cursor only to a point inside the clip. */
  function GotoOps(c: Clip, x: int, y: int): seq<Op> {
    if c.Contains(x, y) then [MoveTo(x, y)] else []
  }

  /** How many leading cells of a run of `n` cells at column `x` lie left of the clip. */
  function SkipBefore(c: Clip, x: int): nat {
    Max0(c.minX - x)
  }

  /** Where the visible part of a run of `n` cells at column `x` ends, relative to `x`. */
  function LimitLength(c: Clip, x: int, n: int): int {
    n - Max0(x + n - c.maxX)
  }

  /**
   * `paint_string(s)` with the logical cursor at `(x, y)`: on a row inside
   * the clip, the visible slice of `s` is written (after a move to the
   * clip's left edge when `s` starts left of it); when exactly nothing is
   * visible the cursor is moved to the end of `s`.
   */
  function PaintOps(c: Clip, x: int, y: int, s: string): seq<Op> {
    if !(c.minY <= y < c.maxY) then []
    else
      var before := SkipBefore(c, x);
      var to := LimitLength(c, x, |s|);
      (if to > before then (if before > 0 then [MoveTo(c.minX, y)] else []) + [Write(s[before..to])] else [])
      + (if to == before then [MoveTo(x + |s|, y)] else [])
  }

  /** `clear_num_pos(n)` with the logical cursor at `(x, y)`: like `PaintOps`, with one erase of the visible cells. */
  function ClearOps(c: Clip, x: int, y: int, n: int): seq<Op> {
    if !(c.minY <= y < c.maxY) then []
    else
      var skipBefore := SkipBefore(c, x);
      var limit := LimitLength(c, x, n);
      (if limit - skipBefore > 0 then (if skipBefore > 0 then [MoveTo(c.minX, y)] else []) + [Erase(limit - skipBefore)] else [])
      + (if limit == skipBefore then [MoveTo(x + n, y)] else [])
  }

  /** `clear_box`: for each row from the top, a `goto` to its left end and a `clear_num_pos(width)`. */
  function ClearBoxOps(c: Clip, left: int, top: int, width: int, rows: int): seq<Op>
    decreases rows
  {
    if rows <= 0 then []
    else
      var row := top + rows - 1;
      ClearBoxOps(c, left, top, width, rows - 1) + RowOps(c, left, row, width)
  }

  /** Erasing one more row extends the trace by that row's operations. */
  lemma ClearBoxOpsGrow(c: Clip, left: int, top: int, width: int, row: int)
    requires top <= row
    ensures ClearBoxOps(c, left, top, width, row + 1 - top) == ClearBoxOps(c, left, top, width, row - top) + RowOps(c, left, row, width)
  {
  }

  /** A trace that holds the first rows of a box, followed by the next row, holds one row more. */
  lemma TraceGrows(start: seq<Op>, c: Clip, left: int, top: int, width: int, row: int)
    requires top <= row
    ensures start + ClearBoxOps(c, left, top, width, row + 1 - top) == start + ClearBoxOps(c, left, top, width, row - top) + RowOps(c, left, row, width)
  {
    ClearBoxOpsGrow(c, left, top, width, row);
  }

  /** One row of `clear_box`. */
  function RowOps(c: Clip, left: int, row: int, width: int): seq<Op> {
    GotoOps(c, left, row) + ClearOps(c, left, row, width)
  }

  // ---------------------------------------------------------------------
  // What the terminal shows
  // ---------------------------------------------------------------------

  /** The terminal cursor after one operation: text advances it, erasing leaves it in place. */
  function StepCursor(op: Op, cur: (int, int)): (int, int) {
    match op
    case MoveTo(x, y) => (x, y)
    case Write(t) => (cur.0 + |t|, cur.1)
    case Erase(_) => cur
  }

  /** The character in cell `p` after one operation, given the one there before. */
  function StepCell(op: Op, cur: (int, int), p: (int, int), prior: char): char {
    match op
    case MoveTo(_, _) => prior
    case Write(t) => if p.1 == cur.1 && cur.0 <= p.0 < cur.0 + |t| then t[p.0 - cur.0] else prior
    case Erase(n) => if p.1 == cur.1 && cur.0 <= p.0 < cur.0 + n then ' ' else prior
  }

  /** The terminal cursor after a trace, starting at `cur`. */
  function CursorAfter(ops: seq<Op>, cur: (int, int)): (int, int)
    decreases |ops|
  {
    if |ops| == 0 then cur else CursorAfter(ops[1..], StepCursor(ops[0], cur))
  }

  /** The character in cell `p` after a trace, starting at `cur` with `prior` in that cell. */
  function Cell(ops: seq<Op>, cur: (int, int), p: (int, int), prior: char): char
    decreases |ops|
  {
    if |ops| == 0 then prior else Cell(ops[1..], StepCursor(ops[0], cur), p, StepCell(ops[0], cur, p, prior))
  }

  /** A trace can be replayed in two parts. */
  lemma {:induction false} Replay(a: seq<Op>, b: seq<Op>, cur: (int, int), p: (int, int), prior: char)
    ensures CursorAfter(a + b, cur) == CursorAfter(b, CursorAfter(a, cur))
    ensures Cell(a + b, cur, p, prior) == Cell(b, CursorAfter(a, cur), p, Cell(a, cur, p, prior))
    decreases |a|
  {
    if |a| == 0 {
      assert a + b == b;
    } else {
      assert (a + b)[0] == a[0];
      assert (a + b)[1..] == a[1..] + b;
      Replay(a[1..], b, StepCursor(a[0], cur), p, StepCell(a[0], cur, p, prior));
    }
  }

  /** Cursor moves never change a cell. */
  lemma MovesKeepCells(x: int, y: int, cur: (int, int), p: (int, int), prior: char)
    ensures Cell([MoveTo(x, y)], cur, p, prior) == prior
    ensures CursorAfter([MoveTo(x, y)], cur) == (x, y)
  {
  }

  /**
   * For a run of `n` cells at `(x, y)` with some visible part, the optional
   * move that `PaintOps`/`ClearOps` send first leaves the terminal cursor on
   * the first visible column, so the text or erase `op` that follows acts
   * from there.
   */
  lemma {:induction false} RunLandsInClip(c: Clip, x: int, y: int, n: int, cur: (int, int), p: (int, int), prior: char, op: Op)
    requires c.minY <= y < c.maxY
    requires c.Contains(x, y) ==> cur == (x, y)
    requires LimitLength(c, x, n) > SkipBefore(c, x)
    ensures var start := if SkipBefore(c, x) > 0 then [MoveTo(c.minX, y)] else [];
      var origin := CursorAfter(start, cur);
      Cell(start + [op], cur, p, prior) == StepCell(op, origin, p, prior) &&
      origin == (x + SkipBefore(c, x), y)
  {
    var start := if SkipBefore(c, x) > 0 then [MoveTo(c.minX, y)] else [];
    Replay(start, [op], cur, p, prior);
    if SkipBefore(c, x) == 0 {
      assert start == [];
      assert c.Contains(x, y);
    }
  }

  /**
   * Painting shows exactly the characters of `s` whose columns fall inside
   * the clip, each in its own column, and leaves every other cell as it was;
   * the terminal cursor must be where the logical one is whenever that
   * point is inside the clip (a `goto` there put it there).
   */
  lemma {:induction false} PaintShowsVisibleColumns(c: Clip, x: int, y: int, s: string, cur: (int, int), p: (int, int), prior: char)
    requires c.Contains(x, y) ==> cur == (x, y)
    ensures Cell(PaintOps(c, x, y, s), cur, p, prior) ==
      if p.1 == y && c.Contains(p.0, p.1) && x <= p.0 < x + |s| then s[p.0 - x] else prior
  {
    if c.minY <= y < c.maxY {
      var before := SkipBefore(c, x);
      var to := LimitLength(c, x, |s|);
      var tail := if to == before then [MoveTo(x + |s|, y)] else [];
      var head := if to > before then (if before > 0 then [MoveTo(c.minX, y)] else []) + [Write(s[before..to])] else [];
      assert PaintOps(c, x, y, s) == head + tail;
      Replay(head, tail, cur, p, prior);
      if to == before {
        MovesKeepCells(x + |s|, y, CursorAfter(head, cur), p, Cell(head, cur, p, prior));
      }
      if to > before {
        RunLandsInClip(c, x, y, |s|, cur, p, prior, Write(s[before..to]));
      }
    }
  }

  /**
   * Erasing `n` cells blanks exactly the cells of the run that fall inside
   * the clip and leaves every other cell as it was.
   */
  lemma {:induction false} ClearBlanksVisibleColumns(c: Clip, x: int, y: int, n: int, cur: (int, int), p: (int, int), prior: char)
    requires c.Contains(x, y) ==> cur == (x, y)
    ensures Cell(ClearOps(c, x, y, n), cur, p, prior) ==
      if p.1 == y && c.Contains(p.0, p.1) && x <= p.0 < x + n then ' ' else prior
  {
    if c.minY <= y < c.maxY {
      var skipBefore := SkipBefore(c, x);
      var limit := LimitLength(c, x, n);
      var tail := if limit == skipBefore then [MoveTo(x + n, y)] else [];
      var head := if limit - skipBefore > 0 then (if skipBefore > 0 then [MoveTo(c.minX, y)] else []) + [Erase(limit - skipBefore)] else [];
      assert ClearOps(c, x, y, n) == head + tail;
      Replay(head, tail, cur, p, prior);
      if limit == skipBefore {
        MovesKeepCells(x + n, y, CursorAfter(head, cur), p, Cell(head, cur, p, prior));
      }
      if limit > skipBefore {
        RunLandsInClip(c, x, y, n, cur, p, prior, Erase(limit - skipBefore));
      }
    }
  }

  /** One row of `clear_box`: a `goto` to its left end, then the clipped erase of `width` cells. */
  lemma {:induction false} ClearRowBlanksRow(c: Clip, left: int, row: int, width: int, cur: (int, int), p: (int, int), prior: char)
    ensures Cell(RowOps(c, left, row, width), cur, p, prior) ==
      if p.1 == row && c.Contains(p.0, p.1) && left <= p.0 < left + width then ' ' else prior
  {
    var g := GotoOps(c, left, row);
    Replay(g, ClearOps(c, left, row, width), cur, p, prior);
    if c.Contains(left, row) {
      MovesKeepCells(left, row, cur, p, prior);
    } else {
      assert g == [];
    }
    ClearBlanksVisibleColumns(c, left, row, width, CursorAfter(g, cur), p, Cell(g, cur, p, prior));
  }

  /**
   * `clear_box` blanks exactly the cells of the box that lie inside the
   * clip, whatever the terminal cursor was, and no other cell.
   */
  lemma {:induction false} ClearBoxBlanksBox(c: Clip, left: int, top: int, width: int, rows: int, cur: (int, int), p: (int, int), prior: char)
    ensures Cell(ClearBoxOps(c, left, top, width, rows), cur, p, prior) ==
      if c.Contains(p.0, p.1) && left <= p.0 < left + width && top <= p.1 < top + rows then ' ' else prior
    decreases rows
  {
    if rows > 0 {
      var row := top + rows - 1;
      var a := ClearBoxOps(c, left, top, width, rows - 1);
      ClearBoxSplit(c, left, top, width, rows, cur, p, prior);
      ClearBoxBlanksBox(c, left, top, width, rows - 1, cur, p, prior);
      ClearRowBlanksRow(c, left, row, width, CursorAfter(a, cur), p, Cell(a, cur, p, prior));
    }
  }

  /** The last row of a box is replayed after the rows above it. */
  lemma ClearBoxSplit(c: Clip, left: int, top: int, width: int, rows: int, cur: (int, int), p: (int, int), prior: char)
    requires rows > 0
    ensures var a := ClearBoxOps(c, left, top, width, rows - 1);
      Cell(ClearBoxOps(c, left, top, width, rows), cur, p, prior) ==
      Cell(RowOps(c, left, top + rows - 1, width), CursorAfter(a, cur), p, Cell(a, cur, p, prior))
  {
    Replay(ClearBoxOps(c, left, top, width, rows - 1), RowOps(c, left, top + rows - 1, width), cur, p, prior);
  }

  /** A fresh context clips everything away: nothing it paints is shown. */
  lemma FreshContextShowsNothing(x: int, y: int, s: string)
    ensures PaintOps(Clip(0, 0, 0, 0), x, y, s) == []
  {
  }

  // ---------------------------------------------------------------------
  // The paint context object
  // ---------------------------------------------------------------------

  class PaintContext {
    const screen: Screen
    var curX: int
    var curY: int
    var minX: int
    var minY: int
    var maxX: int
    var maxY: int

    /** The clip rectangle the context currently paints through. */
    function Bounds(): Clip
      reads this`minX, this`minY, this`maxX, this`maxY
    {
      Clip(minX, minY, maxX, maxY)
    }

    /** The class defaults: cursor at `sys.maxsize`, an empty clip at the origin. */
    constructor (terminal: Screen)
      ensures screen == terminal
      ensures curX == MAXSIZE && curY == MAXSIZE
      ensures Bounds() == Clip(0, 0, 0, 0)
    {
      screen := terminal;
      curX := MAXSIZE;
      curY := MAXSIZE;
      minX := 0;
      minY := 0;
      maxX := 0;
      maxY := 0;
    }

    /** Sets the logical cursor; the terminal cursor moves only to a point inside the clip. */
    method Goto(x: int, y: int)
      modifies this`curX, this`curY, screen
      ensures curX == x && curY == y
      ensures screen.out == old(screen.out) + GotoOps(Bounds(), x, y)
    {
      curX := x;
      curY := y;
      if minX <= x < maxX && minY <= y < maxY {
        screen.Goto(x, y);
      }
    }

    /** Paints `s` at the logical cursor, clipped; the cursor always advances by `|s|`. */
    method PaintString(s: string)
      modifies this`curX, screen
      ensures curX == old(curX) + |s|
      ensures screen.out == old(screen.out) + PaintOps(Bounds(), old(curX), curY, s)
    {
      var x := curX;
      var length := |s|;
      var newX := x + length;
      if minY <= curY < maxY {
        var before := Max0(minX - curX);
        var after := Max0(newX - maxX);
        var to := length - after;
        if to > before {
          if before > 0 {
            screen.Goto(minX, curY);
          }
          screen.Wr(s[before..to]);
        }
        if to == before {
          screen.Goto(newX, curY);
        }
      }
      curX := newX;
    }

    /** Erases `length` cells at the logical cursor, clipped; the cursor always advances by `length`. */
    method ClearNumPos(length: int)
      modifies this`curX, screen
      ensures curX == old(curX) + length
      ensures screen.out == old(screen.out) + ClearOps(Bounds(), old(curX), curY, length)
    {
      var x := curX;
      var newX := x + length;
      if minY <= curY < maxY {
        var skipBefore := Max0(minX - curX);
        var skipAfter := Max0(newX - maxX);
        var limitLength := length - skipAfter;
        var fillLength := limitLength - skipBefore;
        if fillLength > 0 {
          if skipBefore > 0 {
            screen.Goto(minX, curY);
          }
          screen.EraseChars(fillLength);
        }
        if limitLength == skipBefore {
          screen.Goto(newX, curY);
        }
      }
      curX := newX;
    }

    /** One pass of the `clear_box` loop: to the row's left end, then erase `width` cells. */
    method ClearRow(left: int, row: int, width: int)
      modifies this`curX, this`curY, screen
      ensures curX == left + width && curY == row
      ensures screen.out == old(screen.out) + RowOps(Clip(minX, minY, maxX, maxY), left, row, width)
    {
      Goto(left, row);
      ClearNumPos(width);
    }

    /** Erases the box row by row; `ClearBoxBlanksBox` says what that shows. */
    method ClearBox(left: int, top: int, width: int, height: int)
      modifies this`curX, this`curY, screen
      ensures screen.out == old(screen.out) + ClearBoxOps(Clip(minX, minY, maxX, maxY), left, top, width, height)
      ensures height > 0 ==> curX == left + width && curY == top + height - 1
      ensures height <= 0 ==> curX == old(curX) && curY == old(curY)
    {
      ghost var c := Clip(minX, minY, maxX, maxY);
      ghost var start := screen.out;
      var row := top;
      var bottom := top + height;
      while row < bottom
        invariant top <= row && (height > 0 ==> row <= bottom) && (height <= 0 ==> row == top)
        invariant Clip(minX, minY, maxX, maxY) == c
        invariant screen.out == start + ClearBoxOps(c, left, top, width, row - top)
        invariant row > top ==> curX == left + width && curY == row - 1
        invariant row == top ==> curX == old(curX) && curY == old(curY)
      {
        ClearRow(left, row, width);
        TraceGrows(start, c, left, top, width, row);
        row := row + 1;
      }
    }
  }
}
