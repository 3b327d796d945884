/**
 * The height negotiation of fsel/lib/dynamic_dialog.py: a dialog drawn
 * inline below the shell prompt takes the height its children need, at most
 * the screen's, erases the rows it gives up, and scrolls the terminal up
 * when it would run past the bottom line.
 */
module DynamicDialog {
  import opened PyStr
  import opened PaintContext

  function Min(a: int, b: int): int {
    if a <= b then a else b
  }

  /** The writes of `for _ in range(count): Screen.wr('\r\n')`. */
  function Newlines(count: nat): (r: seq<Op>)
    ensures |r| == count
  {
    if count == 0 then [] else Newlines(count - 1) + [Write("\r\n")]
  }

  /** Every one of those writes is a CR LF pair. */
  lemma {:induction false} NewlinesAreCrLf(count: nat)
    ensures forall k :: 0 <= k < count ==> Newlines(count)[k] == Write("\r\n")
  {
    if count > 0 {
      NewlinesAreCrLf(count - 1);
    }
  }

  /** How many rows a dialog of height `h` at row `y` reaches past the bottom of the screen. */
  function Overshoot(y: int, h: int, screenHeight: int): nat {
    Max0(y + h - screenHeight)
  }

  /** The erase `request_height` sends for a dialog at `(x, y)` of width `w` going from height `oldH` to `h`. */
  function ShrinkOps(c: Clip, x: int, y: int, w: int, oldH: int, h: int): seq<Op> {
    if oldH > h then ClearBoxOps(c, x, y + h, w, oldH - h) else []
  }

  /** The scroll `request_height` sends: from the bottom line, one line feed per row of overshoot. */
  function ScrollOps(y: int, h: int, screenHeight: int): seq<Op> {
    var overshoot := Overshoot(y, h, screenHeight);
    if overshoot > 0 then [MoveTo(0, screenHeight - 1)] + Newlines(overshoot) else []
  }

  /**
   * The rows a shrinking dialog gives up, `oldH - h` of them from row
   * `y + h`, are blanked wherever they are inside the clip, and nothing
   * else is touched before the scroll.
   */
  lemma ShrinkBlanksReleasedRows(c: Clip, x: int, y: int, w: int, oldH: int, h: int, cur: (int, int), p: (int, int), prior: char)
    requires oldH > h
    ensures Cell(ClearBoxOps(c, x, y + h, w, oldH - h), cur, p, prior) ==
      if c.Contains(p.0, p.1) && x <= p.0 < x + w && y + h <= p.1 < y + oldH then ' ' else prior
  {
    ClearBoxBlanksBox(c, x, y + h, w, oldH - h, cur, p, prior);
  }

  class DynamicDialog {
    var x: int
    var y: int
    var w: int
    var h: int
    const screenHeight: int
    const ctx: PaintContext

    constructor (rows: int, atX: int, atY: int, width: int, height: int, paint: PaintContext)
      ensures screenHeight == rows && x == atX && y == atY && w == width && h == height && ctx == paint
    {
      screenHeight := rows;
      x := atX;
      y := atY;
      w := width;
      h := height;
      ctx := paint;
    }

    /**
     * `request_height(max_child_h)`: the new height is what the children
     * need, capped by the screen; afterwards the dialog ends on the screen,
     * having moved up by exactly the overshoot (not at all if it fitted).
     */
    method RequestHeight(maxChildH: int)
      modifies this`h, this`y, ctx`curX, ctx`curY, ctx.screen
      ensures h == Min(maxChildH, screenHeight)
      ensures y == old(y) - Overshoot(old(y), h, screenHeight)
      ensures y + h <= screenHeight
      ensures old(y) + h <= screenHeight ==> y == old(y)
      ensures old(y) >= 0 ==> y >= 0
      ensures ctx.screen.out == old(ctx.screen.out) + ShrinkOps(ctx.Bounds(), x, old(y), w, old(h), h) + ScrollOps(old(y), h, screenHeight)
    {
      ghost var c := ctx.Bounds();
      ShrinkTo(Min(maxChildH, screenHeight));
      ScrollIntoView();
      assert ctx.Bounds() == c;
    }

    /** The first half of `request_height`: the new height, and the erase of the rows given up. */
    method ShrinkTo(newH: int)
      modifies this`h, ctx`curX, ctx`curY, ctx.screen
      ensures h == newH
      ensures ctx.screen.out == old(ctx.screen.out) + ShrinkOps(ctx.Bounds(), x, y, w, old(h), h)
    {
      var oldH := h;
      h := newH;
      if oldH > h {
        ctx.ClearBox(x, y + h, w, oldH - h);
      }
    }

    /** The second half of `request_height`: the scroll that brings the dialog's last row onto the screen. */
    method ScrollIntoView()
      modifies this`y, ctx.screen
      ensures y == old(y) - Overshoot(old(y), h, screenHeight)
      ensures ctx.screen.out == old(ctx.screen.out) + ScrollOps(old(y), h, screenHeight)
    {
      var overshoot := Max0(y + h - screenHeight);
      if overshoot > 0 {
        ScrollUp(overshoot);
      }
    }

    /** The scroll of `request_height`: from the bottom line, `overshoot` line feeds, and the dialog moves up. */
    method ScrollUp(overshoot: nat)
      modifies this`y, ctx.screen
      ensures y == old(y) - overshoot
      ensures ctx.screen.out == old(ctx.screen.out) + [MoveTo(0, screenHeight - 1)] + Newlines(overshoot)
    {
      ctx.screen.Goto(0, screenHeight - 1);
      ghost var moved := ctx.screen.out;
      var i := 0;
      while i < overshoot
        invariant 0 <= i <= overshoot
        invariant ctx.screen.out == moved + Newlines(i) && y == old(y)
      {
        ctx.screen.Wr("\r\n");
        assert moved + Newlines(i + 1) == moved + Newlines(i) + [Write("\r\n")];
        i := i + 1;
      }
      y := y - overshoot;
    }
  }
}
