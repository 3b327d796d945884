/**
 * The older rich-text renderer (fsel/rich_text.py): a mutable `Style`
 * record, `render_styled`, which wraps a text in ECMA-48 SGR on/off codes
 * (section 8.3.117 of ECMA-48), and `render_substr`, which renders the
 * columns `[start, end)` of a list of styled spans and pads with spaces.
 */
module RichText {
  import opened Wrappers
  import opened Bits
  import opened PyStr

  /** A snapshot of a `Style` object: attribute word, optional RGB foreground and background. */
  datatype StyleValue = StyleValue(attr: nat, fg: Option<seq<int>>, bg: Option<seq<int>>)

  /**
   * The `Style` dataclass of fsel/rich_text.py; unlike the later copies,
   * `with_attr` overwrites the receiver's attribute word and returns the
   * receiver itself.
   */
  class Style {
    var attr: nat
    var fg: Option<seq<int>>
    var bg: Option<seq<int>>

    constructor (attr: nat, fg: Option<seq<int>>, bg: Option<seq<int>>)
      ensures this.attr == attr && this.fg == fg && this.bg == bg
    {
      this.attr := attr;
      this.fg := fg;
      this.bg := bg;
    }

    function Value(): StyleValue
      reads this
    {
      StyleValue(attr, fg, bg)
    }

    method WithAttr(a: nat) returns (r: Style)
      modifies this`attr
      ensures r == this
      ensures attr == a && fg == old(fg) && bg == old(bg)
    {
      attr := a;
      r := this;
    }
  }

  /**
   * What the renderer takes from the terminal library, which is not part
   * of this model: the escape sequences for an RGB foreground and
   * background, and the attribute masks for bold, italic and underline.
   */
  datatype Terminal = Terminal(
    fgCode: seq<int> -> string,
    bgCode: seq<int> -> string,
    boldMask: nat,
    italicMask: nat,
    underlinedMask: nat)

  const ESC: char := 27 as char
  /** SGR 39, 49, 1/22, 3/23 and 4/24 (ECMA-48 section 8.3.117). */
  const DEFAULT_FG: string := [ESC] + "[39m"
  const DEFAULT_BG: string := [ESC] + "[49m"
  const BOLD: string := [ESC] + "[1m"
  const NOT_BOLD: string := [ESC] + "[22m"
  const ITALIC: string := [ESC] + "[3m"
  const NOT_ITALIC: string := [ESC] + "[23m"
  const UNDERLINED: string := [ESC] + "[4m"
  const NOT_UNDERLINED: string := [ESC] + "[24m"

  predicate HasAttr(attr: nat, mask: nat) {
    BitAnd(attr, mask) != 0
  }

  /** `on + x + off` when `present`, else `x` unchanged. */
  function Wrap(present: bool, on: string, off: string, x: string): string {
    if present then on + x + off else x
  }

  function When(present: bool, s: string): string {
    if present then s else ""
  }

  function FgOn(t: Terminal, style: StyleValue): string {
    if style.fg.Some? then t.fgCode(style.fg.value) else ""
  }

  function BgOn(t: Terminal, style: StyleValue): string {
    if style.bg.Some? then t.bgCode(style.bg.value) else ""
  }

  /** `render_styled`: each wrapper is applied around the previous result. */
  function RenderStyled(t: Terminal, style: StyleValue, text: string): string {
    var r1 := Wrap(style.fg.Some?, FgOn(t, style), DEFAULT_FG, text);
    var r2 := Wrap(style.bg.Some?, BgOn(t, style), DEFAULT_BG, r1);
    var r3 := Wrap(HasAttr(style.attr, t.boldMask), BOLD, NOT_BOLD, r2);
    var r4 := Wrap(HasAttr(style.attr, t.italicMask), ITALIC, NOT_ITALIC, r3);
    Wrap(HasAttr(style.attr, t.underlinedMask), UNDERLINED, NOT_UNDERLINED, r4)
  }

  /** The on-codes, outermost (underline) first. */
  function Opening(t: Terminal, style: StyleValue): string {
    When(HasAttr(style.attr, t.underlinedMask), UNDERLINED)
    + (When(HasAttr(style.attr, t.italicMask), ITALIC)
    + (When(HasAttr(style.attr, t.boldMask), BOLD)
    + (When(style.bg.Some?, BgOn(t, style))
    + When(style.fg.Some?, FgOn(t, style)))))
  }

  /** The off-codes, innermost (foreground) first. */
  function Closing(t: Terminal, style: StyleValue): string {
    When(style.fg.Some?, DEFAULT_FG)
    + When(style.bg.Some?, DEFAULT_BG)
    + When(HasAttr(style.attr, t.boldMask), NOT_BOLD)
    + When(HasAttr(style.attr, t.italicMask), NOT_ITALIC)
    + When(HasAttr(style.attr, t.underlinedMask), NOT_UNDERLINED)
  }

  /** Wrapping `o + x + c` adds the on-code in front of `o` and the off-code after `c`. */
  lemma WrapAround(present: bool, on: string, off: string, o: string, x: string, c: string)
    ensures Wrap(present, on, off, o + x + c) == (When(present, on) + o) + x + (c + When(present, off))
  {
    if present {
      calc {
        on + (o + x + c) + off;
        (on + o) + x + (c + off);
      }
    }
  }

  /**
   * The wrappers nest with the foreground innermost, then background,
   * bold, italic, and underline outermost: the text is preceded by the
   * present on-codes, outermost first, and followed by the matching
   * off-codes in the reverse order.
   */
  lemma RenderStyledNests(t: Terminal, style: StyleValue, text: string)
    ensures RenderStyled(t, style, text) == Opening(t, style) + text + Closing(t, style)
  {
    var f, g := style.fg.Some?, style.bg.Some?;
    var b, i, u := HasAttr(style.attr, t.boldMask), HasAttr(style.attr, t.italicMask), HasAttr(style.attr, t.underlinedMask);
    var o1, c1 := When(f, FgOn(t, style)), When(f, DEFAULT_FG);
    var r1 := Wrap(f, FgOn(t, style), DEFAULT_FG, text);
    assert r1 == o1 + text + c1;
    WrapAround(g, BgOn(t, style), DEFAULT_BG, o1, text, c1);
    var r2 := Wrap(g, BgOn(t, style), DEFAULT_BG, r1);
    var o2, c2 := When(g, BgOn(t, style)) + o1, c1 + When(g, DEFAULT_BG);
    WrapAround(b, BOLD, NOT_BOLD, o2, text, c2);
    var r3 := Wrap(b, BOLD, NOT_BOLD, r2);
    var o3, c3 := When(b, BOLD) + o2, c2 + When(b, NOT_BOLD);
    WrapAround(i, ITALIC, NOT_ITALIC, o3, text, c3);
    var r4 := Wrap(i, ITALIC, NOT_ITALIC, r3);
    var o4, c4 := When(i, ITALIC) + o3, c3 + When(i, NOT_ITALIC);
    WrapAround(u, UNDERLINED, NOT_UNDERLINED, o4, text, c4);
  }

  /** With no attributes and no colours the text comes back unchanged. */
  lemma RenderStyledPlain(t: Terminal, text: string)
    ensures RenderStyled(t, StyleValue(0, None, None), text) == text
  {
  }

  /** The part of a span's text, starting at column `spanStart`, that falls in `[start, end)`. */
  function Overlap(text: string, spanStart: int, start: int, end: int): string
    requires spanStart + |text| > start && end > spanStart
  {
    var fromX := Max(start, spanStart);
    var toX := Min(end, spanStart + |text|);
    Slice(text, fromX - spanStart, toX - spanStart)
  }

  /** `render_styled` for the terminal `t`, as a function value. */
  function Styler(t: Terminal): (StyleValue, string) -> string {
    (style, text) => RenderStyled(t, style, text)
  }

  /**
   * The loop of `render_substr` from span `i`, which starts at column
   * `spanStart`, with `acc` rendered so far and `render` rendering one
   * styled piece: the final `result` and `span_start`. The loop stops at
   * the first span that starts at or after `end` once `start` has been
   * passed.
   */
  function RenderLoop(render: (StyleValue, string) -> string, spans: seq<(string, StyleValue)>, i: nat, spanStart: int, acc: string, start: int, end: int): (string, int)
    requires i <= |spans|
    decreases |spans| - i
  {
    if i == |spans| then (acc, spanStart)
    else
      var spanEnd := spanStart + |spans[i].0|;
      if spanEnd > start && end <= spanStart then (acc, spanStart)
      else
        var piece := if spanEnd > start then render(spans[i].1, Overlap(spans[i].0, spanStart, start, end)) else "";
        RenderLoop(render, spans, i + 1, spanEnd, acc + piece, start, end)
  }

  function Max(a: int, b: int): int {
    if a >= b then a else b
  }

  function Min(a: int, b: int): int {
    if a <= b then a else b
  }

  /**
   * The loop of `render_substr`: the rendered pieces of the spans that
   * overlap `[start, end)`, and the column where the loop stopped.
   */
  method RenderSpans(t: Terminal, spans: seq<(string, StyleValue)>, start: int, end: int) returns (result: string, spanStart: int)
    ensures var res := RenderLoop(Styler(t), spans, 0, 0, "", start, end);
      result == res.0 && spanStart == res.1
  {
    var render := Styler(t);
    result := "";
    spanStart := 0;
    var i := 0;
    while i < |spans|
      invariant 0 <= i <= |spans|
      invariant RenderLoop(render, spans, 0, 0, "", start, end) == RenderLoop(render, spans, i, spanStart, result, start, end)
    {
      var stop, acc, spanEnd := RenderSpan(render, spans, i, spanStart, result, start, end);
      if stop {
        break;
      }
      result, spanStart := acc, spanEnd;
      i := i + 1;
    }
    if i == |spans| {
      RenderLoopEnd(render, spans, i, spanStart, result, start, end);
    }
  }

  /** One turn of the loop of `render_substr`: stop at a span starting at or after `end`, else render its overlap. */
  method RenderSpan(render: (StyleValue, string) -> string, spans: seq<(string, StyleValue)>, i: nat, spanStart: int, result: string, start: int, end: int)
    returns (stop: bool, acc: string, spanEnd: int)
    requires i < |spans|
    ensures stop ==> RenderLoop(render, spans, i, spanStart, result, start, end) == (result, spanStart)
    ensures !stop ==> RenderLoop(render, spans, i, spanStart, result, start, end) == RenderLoop(render, spans, i + 1, spanEnd, acc, start, end)
  {
    var span := spans[i];
    spanEnd := spanStart + |span.0|;
    RenderLoopStep(render, spans, i, spanStart, result, start, end);
    stop, acc := false, result;
    if spanEnd > start {
      if end <= spanStart {
        return true, result, spanEnd;
      }
      var text := Overlap(span.0, spanStart, start, end);
      acc := result + render(span.1, text);
    }
  }

  /**
   * `render_substr(spans, start, end)`: the rendered spans, padded with
   * spaces up to `end`. Whatever the styles, it is every span's rendered
   * overlap with `[start, end)`, in order, followed by spaces only.
   */
  method RenderSubstr(t: Terminal, spans: seq<(string, StyleValue)>, start: int, end: int) returns (result: string)
    ensures var res := RenderLoop(Styler(t), spans, 0, 0, "", start, end);
      result == res.0 + Spaces(end - Max(start, res.1))
    ensures var p := Pieces(Styler(t), spans, 0, 0, start, end);
      |p| <= |result| && result[..|p|] == p && forall k :: |p| <= k < |result| ==> result[k] == ' '
  {
    var body, last := RenderSpans(t, spans, start, end);
    result := body + Spaces(end - Max(start, last));
    PaddedPieces(t, spans, start, end, body, end - Max(start, last));
  }

  /** The loop's text followed by blanks starts with the pieces and has only blanks after them. */
  lemma PaddedPieces(t: Terminal, spans: seq<(string, StyleValue)>, start: int, end: int, body: string, n: int)
    requires body == RenderLoop(Styler(t), spans, 0, 0, "", start, end).0
    ensures var p, r := Pieces(Styler(t), spans, 0, 0, start, end), body + Spaces(n);
      |p| <= |r| && r[..|p|] == p && forall k :: |p| <= k < |r| ==> r[k] == ' '
  {
    RenderLoopIsPieces(Styler(t), spans, 0, 0, "", start, end);
    assert "" + Pieces(Styler(t), spans, 0, 0, start, end) == Pieces(Styler(t), spans, 0, 0, start, end);
    SpacesAreSpaces(n);
    assert (body + Spaces(n))[..|body|] == body;
  }

  /**
   * What the spans from `i` on, the first starting at column `spanStart`,
   * contribute: each span that overlaps `[start, end)` its overlap
   * rendered in its style, every other span nothing.
   */
  function Pieces(render: (StyleValue, string) -> string, spans: seq<(string, StyleValue)>, i: nat, spanStart: int, start: int, end: int): string
    requires i <= |spans|
    decreases |spans| - i
  {
    if i == |spans| then ""
    else
      var spanEnd := spanStart + |spans[i].0|;
      (if spanEnd > start && end > spanStart then render(spans[i].1, Overlap(spans[i].0, spanStart, start, end)) else "")
      + Pieces(render, spans, i + 1, spanEnd, start, end)
  }

  /** Spans that start at or after `end` contribute nothing. */
  lemma {:induction false} PiecesPastEnd(render: (StyleValue, string) -> string, spans: seq<(string, StyleValue)>, i: nat, spanStart: int, start: int, end: int)
    requires i <= |spans| && end <= spanStart
    ensures Pieces(render, spans, i, spanStart, start, end) == ""
    decreases |spans| - i
  {
    if i < |spans| {
      PiecesPastEnd(render, spans, i + 1, spanStart + |spans[i].0|, start, end);
    }
  }

  /**
   * The loop's early exit only skips spans that contribute nothing: what it
   * renders is the spans' contributions appended to what it had.
   */
  lemma {:induction false} RenderLoopIsPieces(render: (StyleValue, string) -> string, spans: seq<(string, StyleValue)>, i: nat, spanStart: int, acc: string, start: int, end: int)
    requires i <= |spans|
    ensures RenderLoop(render, spans, i, spanStart, acc, start, end).0 == acc + Pieces(render, spans, i, spanStart, start, end)
    decreases |spans| - i
  {
    if i == |spans| {
      assert acc + "" == acc;
    } else {
      var spanEnd := spanStart + |spans[i].0|;
      if spanEnd > start && end <= spanStart {
        PiecesPastEnd(render, spans, i, spanStart, start, end);
        assert acc + "" == acc;
      } else {
        var piece := if spanEnd > start then render(spans[i].1, Overlap(spans[i].0, spanStart, start, end)) else "";
        var rest := Pieces(render, spans, i + 1, spanEnd, start, end);
        PiecesStep(render, spans, i, spanStart, start, end, piece);
        RenderLoopStep(render, spans, i, spanStart, acc, start, end);
        RenderLoopIsPieces(render, spans, i + 1, spanEnd, acc + piece, start, end);
        assert acc + piece + rest == acc + (piece + rest);
      }
    }
  }

  /** Unfolds `Pieces` once, for a span the loop does not stop at. */
  lemma PiecesStep(render: (StyleValue, string) -> string, spans: seq<(string, StyleValue)>, i: nat, spanStart: int, start: int, end: int, piece: string)
    requires i < |spans|
    requires !(spanStart + |spans[i].0| > start && end <= spanStart)
    requires piece == if spanStart + |spans[i].0| > start then render(spans[i].1, Overlap(spans[i].0, spanStart, start, end)) else ""
    ensures Pieces(render, spans, i, spanStart, start, end) == piece + Pieces(render, spans, i + 1, spanStart + |spans[i].0|, start, end)
  {
  }

  /** One turn of the loop: it stops, or goes on with the next span and this span's piece appended. */
  lemma RenderLoopStep(render: (StyleValue, string) -> string, spans: seq<(string, StyleValue)>, i: nat, spanStart: int, acc: string, start: int, end: int)
    requires i < |spans|
    ensures var spanEnd := spanStart + |spans[i].0|;
      if spanEnd > start && end <= spanStart then
        RenderLoop(render, spans, i, spanStart, acc, start, end) == (acc, spanStart)
      else if spanEnd > start then
        RenderLoop(render, spans, i, spanStart, acc, start, end)
          == RenderLoop(render, spans, i + 1, spanEnd, acc + render(spans[i].1, Overlap(spans[i].0, spanStart, start, end)), start, end)
      else
        RenderLoop(render, spans, i, spanStart, acc, start, end) == RenderLoop(render, spans, i + 1, spanEnd, acc, start, end)
  {
    var spanEnd := spanStart + |spans[i].0|;
    if !(spanEnd > start && end <= spanStart) && spanEnd <= start {
      assert acc + "" == acc;
    }
  }

  /** When the loop has run out of spans, its result is what has been rendered so far. */
  lemma RenderLoopEnd(render: (StyleValue, string) -> string, spans: seq<(string, StyleValue)>, i: nat, spanStart: int, acc: string, start: int, end: int)
    requires i == |spans|
    ensures RenderLoop(render, spans, i, spanStart, acc, start, end) == (acc, spanStart)
  {
  }

  /** Plain text of the spans from `i` on. */
  function PlainFrom(spans: seq<(string, StyleValue)>, i: nat): string
    requires i <= |spans|
    decreases |spans| - i
  {
    if i == |spans| then "" else spans[i].0 + PlainFrom(spans, i + 1)
  }

  predicate AllPlain(spans: seq<(string, StyleValue)>) {
    forall i :: 0 <= i < |spans| ==> spans[i].1 == StyleValue(0, None, None)
  }

  function Clamp(x: int, hi: nat): (r: nat)
    ensures r <= hi
  {
    if x < 0 then 0 else if x > hi then hi else x
  }

  /** Cutting `text + q` within `text`, at offsets measured from the start of `text`. */
  lemma CutInside(text: string, q: string, lo: int, hi: int)
    requires lo <= hi <= |text|
    ensures var p := text + q;
      p[Clamp(lo, |p|)..Clamp(hi, |p|)] == text[Clamp(lo, |text|)..Clamp(hi, |text|)] + q[Clamp(lo - |text|, |q|)..Clamp(hi - |text|, |q|)]
  {
    var p := text + q;
    var a, b := Clamp(lo, |text|), Clamp(hi, |text|);
    assert Clamp(lo, |p|) == a && Clamp(hi, |p|) == b && b <= |text|;
    assert Clamp(lo - |text|, |q|) == 0 && Clamp(hi - |text|, |q|) == 0;
    assert p[a..b] == text[a..b];
    assert text[a..b] + q[0..0] == text[a..b];
  }

  /** Cutting `text + q` across the end of `text`. */
  lemma CutAcross(text: string, q: string, lo: int, hi: int)
    requires lo < |text| < hi
    ensures var p := text + q;
      p[Clamp(lo, |p|)..Clamp(hi, |p|)] == text[Clamp(lo, |text|)..Clamp(hi, |text|)] + q[Clamp(lo - |text|, |q|)..Clamp(hi - |text|, |q|)]
  {
    var p := text + q;
    var a, hi' := Clamp(lo, |text|), Clamp(hi - |text|, |q|);
    assert Clamp(lo, |p|) == a && Clamp(hi, |text|) == |text|;
    assert Clamp(hi, |p|) == |text| + hi';
    assert Clamp(lo - |text|, |q|) == 0;
    assert p[a..|text| + hi'] == text[a..|text|] + q[0..hi'];
  }

  /** Cutting `text + q` after the end of `text`. */
  lemma CutAfter(text: string, q: string, lo: int, hi: int)
    requires |text| <= lo <= hi
    ensures var p := text + q;
      p[Clamp(lo, |p|)..Clamp(hi, |p|)] == q[Clamp(lo - |text|, |q|)..Clamp(hi - |text|, |q|)]
  {
    var p := text + q;
    var lo', hi' := Clamp(lo - |text|, |q|), Clamp(hi - |text|, |q|);
    assert Clamp(lo, |p|) == |text| + lo';
    assert Clamp(hi, |p|) == |text| + hi';
    assert p[|text| + lo'..|text| + hi'] == q[lo'..hi'];
  }

  /**
   * A span that the loop does not stop at, whose contribution is its plain
   * overlap: that contribution followed by the cut of the rest is the cut
   * of the whole.
   */
  lemma PlainStep(text: string, spanStart: int, q: string, start: int, end: int, piece: string)
    requires start <= end
    requires !(spanStart + |text| > start && end <= spanStart)
    requires piece == if spanStart + |text| > start then Overlap(text, spanStart, start, end) else ""
    ensures var spanEnd, p := spanStart + |text|, text + q;
      piece + q[Clamp(start - spanEnd, |q|)..Clamp(end - spanEnd, |q|)] == p[Clamp(start - spanStart, |p|)..Clamp(end - spanStart, |p|)]
  {
    var spanEnd := spanStart + |text|;
    var lo, hi := start - spanStart, end - spanStart;
    assert start - spanEnd == lo - |text| && end - spanEnd == hi - |text|;
    if lo < |text| {
      OverlapIsCut(text, spanStart, start, end);
    }
    CutStep(text, q, lo, hi, piece);
  }

  /** `PlainStep` in offsets from the start of the span. */
  lemma CutStep(text: string, q: string, lo: int, hi: int, piece: string)
    requires lo <= hi
    requires piece == if lo < |text| then text[Clamp(lo, |text|)..Clamp(hi, |text|)] else ""
    ensures piece + q[Clamp(lo - |text|, |q|)..Clamp(hi - |text|, |q|)] == (text + q)[Clamp(lo, |text + q|)..Clamp(hi, |text + q|)]
  {
    if lo < |text| {
      CutFrom(text, q, lo, hi, piece);
    } else {
      var rest := q[Clamp(lo - |text|, |q|)..Clamp(hi - |text|, |q|)];
      CutAfter(text, q, lo, hi);
      assert "" + rest == rest;
    }
  }

  /** Cutting `text + q` from inside `text`: the cut of `text`, then the cut of `q`. */
  lemma CutFrom(text: string, q: string, lo: int, hi: int, piece: string)
    requires lo < |text| && lo <= hi && piece == text[Clamp(lo, |text|)..Clamp(hi, |text|)]
    ensures piece + q[Clamp(lo - |text|, |q|)..Clamp(hi - |text|, |q|)] == (text + q)[Clamp(lo, |text + q|)..Clamp(hi, |text + q|)]
  {
    if hi <= |text| {
      CutInside(text, q, lo, hi);
    } else {
      CutAcross(text, q, lo, hi);
    }
  }

  lemma OverlapIsCut(text: string, spanStart: int, start: int, end: int)
    requires spanStart + |text| > start && end > spanStart && start <= end
    ensures Overlap(text, spanStart, start, end) == text[Clamp(start - spanStart, |text|)..Clamp(end - spanStart, |text|)]
  {
    var f, t := Max(start, spanStart) - spanStart, Min(end, spanStart + |text|) - spanStart;
    assert f == Clamp(start - spanStart, |text|);
    assert t == Clamp(end - spanStart, |text|);
    assert f <= t;
  }

  lemma Combine(acc: string, piece: string, rest: string, whole: string, body: string)
    requires body == acc + piece + rest && piece + rest == whole
    ensures body == acc + whole
  {
  }

  /** `render` leaves unstyled text as it is. */
  ghost predicate KeepsPlain(render: (StyleValue, string) -> string) {
    forall x :: render(StyleValue(0, None, None), x) == x
  }

  lemma StylerKeepsPlain(t: Terminal)
    ensures KeepsPlain(Styler(t))
  {
    forall x {
      RenderStyledPlain(t, x);
    }
  }

  /**
   * With unstyled spans, the loop from span `i` (starting at column
   * `spanStart`) appends to `acc` exactly the plain characters of its
   * spans that fall in `[start, end)`, and it either runs to the end of
   * the spans or stops at a column at or after `end`.
   */
  lemma {:induction false} RenderLoopPlain(render: (StyleValue, string) -> string, spans: seq<(string, StyleValue)>, i: nat, spanStart: int, acc: string, start: int, end: int)
    requires KeepsPlain(render) && AllPlain(spans) && i <= |spans| && start <= end
    ensures var p := PlainFrom(spans, i);
      var res := RenderLoop(render, spans, i, spanStart, acc, start, end);
      && res.0 == acc + p[Clamp(start - spanStart, |p|)..Clamp(end - spanStart, |p|)]
      && (res.1 == spanStart + |p| || end <= res.1 <= spanStart + |p|)
    decreases |spans| - i
  {
    var p := PlainFrom(spans, i);
    if i < |spans| {
      var text := spans[i].0;
      var spanEnd := spanStart + |text|;
      var q := PlainFrom(spans, i + 1);
      assert p == text + q;
      if spanEnd > start && end <= spanStart {
        assert RenderLoop(render, spans, i, spanStart, acc, start, end) == (acc, spanStart);
        assert Clamp(end - spanStart, |p|) == 0;
      } else {
        var piece := if spanEnd > start then render(spans[i].1, Overlap(text, spanStart, start, end)) else "";
        assert RenderLoop(render, spans, i, spanStart, acc, start, end) == RenderLoop(render, spans, i + 1, spanEnd, acc + piece, start, end);
        assert spans[i].1 == StyleValue(0, None, None);
        assert piece == if spanEnd > start then Overlap(text, spanStart, start, end) else "";
        var lo', hi' := Clamp(start - spanEnd, |q|), Clamp(end - spanEnd, |q|);
        var rec := RenderLoop(render, spans, i + 1, spanEnd, acc + piece, start, end);
        PlainStep(text, spanStart, q, start, end, piece);
        RenderLoopPlain(render, spans, i + 1, spanEnd, acc + piece, start, end);
        assert rec.0 == (acc + piece) + q[lo'..hi'];
        Combine(acc, piece, q[lo'..hi'], p[Clamp(start - spanStart, |p|)..Clamp(end - spanStart, |p|)], rec.0);
        assert spanEnd + |q| == spanStart + |p|;
      }
    }
  }

  /**
   * `render_substr` on unstyled spans with `0 <= start <= end` is the
   * plain text, padded with spaces, cut to `[start, end)`; its length is
   * `end - start`.
   */
  lemma RenderSubstrPlain(t: Terminal, spans: seq<(string, StyleValue)>, start: int, end: int)
    requires AllPlain(spans) && 0 <= start <= end
    ensures var res := RenderLoop(Styler(t), spans, 0, 0, "", start, end);
      var r := res.0 + Spaces(end - Max(start, res.1));
      var padded := PlainFrom(spans, 0) + Spaces(end - |PlainFrom(spans, 0)|);
      && end <= |padded|
      && r == padded[start..end]
      && |r| == end - start
  {
    StylerKeepsPlain(t);
    PlainCut(Styler(t), spans, start, end);
    var res := RenderLoop(Styler(t), spans, 0, 0, "", start, end);
    assert PaddedIsCut(PlainFrom(spans, 0), res.0, res.1, start, end);
  }

  /**
   * `body`, padded with spaces from column `max(start, last)` up to `end`,
   * is the cut `[start, end)` of `p` padded with spaces up to `end`.
   */
  ghost predicate PaddedIsCut(p: string, body: string, last: int, start: int, end: int) {
    var r := body + Spaces(end - Max(start, last));
    var padded := p + Spaces(end - |p|);
    && 0 <= start <= end <= |padded|
    && r == padded[start..end]
    && |r| == end - start
  }

  /** `RenderSubstrPlain` for any renderer that leaves unstyled text as it is. */
  lemma PlainCut(render: (StyleValue, string) -> string, spans: seq<(string, StyleValue)>, start: int, end: int)
    requires KeepsPlain(render) && AllPlain(spans) && 0 <= start <= end
    ensures var res := RenderLoop(render, spans, 0, 0, "", start, end);
      PaddedIsCut(PlainFrom(spans, 0), res.0, res.1, start, end)
  {
    var res := RenderLoop(render, spans, 0, 0, "", start, end);
    RenderLoopPlainFromStart(render, spans, start, end);
    PaddedCut(PlainFrom(spans, 0), res.0, res.1, start, end);
  }

  /** `RenderLoopPlain` for the whole loop: from the first span, at column 0, with nothing rendered yet. */
  lemma RenderLoopPlainFromStart(render: (StyleValue, string) -> string, spans: seq<(string, StyleValue)>, start: int, end: int)
    requires KeepsPlain(render) && AllPlain(spans) && start <= end
    ensures var p := PlainFrom(spans, 0);
      var res := RenderLoop(render, spans, 0, 0, "", start, end);
      && res.0 == p[Clamp(start, |p|)..Clamp(end, |p|)]
      && (res.1 == |p| || end <= res.1 <= |p|)
  {
    var p := PlainFrom(spans, 0);
    RenderLoopPlain(render, spans, 0, 0, "", start, end);
    var body := p[Clamp(start, |p|)..Clamp(end, |p|)];
    assert "" + body == body;
  }

  /**
   * The padding step of `render_substr`: the cut of the plain text,
   * followed by spaces up to `end`, is the cut of the padded text.
   */
  lemma PaddedCut(p: string, body: string, last: int, start: int, end: int)
    requires 0 <= start <= end
    requires body == p[Clamp(start, |p|)..Clamp(end, |p|)]
    requires last == |p| || end <= last <= |p|
    ensures PaddedIsCut(p, body, last, start, end)
  {
    var pad := Spaces(end - |p|);
    var padded := p + pad;
    var tail := Spaces(end - Max(start, last));
    if end <= |p| {
      assert |tail| == 0;
      assert padded[start..end] == p[start..end];
    } else {
      assert last == |p|;
      if start >= |p| {
        assert body == "";
        assert tail == pad[start - |p|..] by {
          SpacesAreSpaces(end - Max(start, last));
          SpacesAreSpaces(end - |p|);
          SpacesEqual(tail, pad[start - |p|..]);
        }
        assert padded[start..end] == pad[start - |p|..];
      } else {
        assert tail == pad;
        assert padded[start..end] == p[start..] + pad;
      }
    }
  }

  /** Two runs of spaces of the same length are equal. */
  lemma SpacesEqual(a: string, b: string)
    requires |a| == |b|
    requires forall k :: 0 <= k < |a| ==> a[k] == ' '
    requires forall k :: 0 <= k < |b| ==> b[k] == ' '
    ensures a == b
  {
  }
}
