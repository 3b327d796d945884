/**
 * fsel/lib/style_combiner.py: the colours of one list entry are picked once,
 * from the entry's attribute word and the focus state, and then fill in
 * whatever a span's own style leaves unset.
 */
module StyleCombiner {
  import opened Wrappers
  import opened Bits
  import opened Style
  import opened Palette
  import ListItemInfo
  import ItemModel

  /** Indices into a palette row (`Palette.C_IDX_BG`, `Palette.C_IDX_REG_FG`). */
  const C_IDX_BG: nat := 0
  const C_IDX_REG_FG: nat := 1

  const BLACK: Color := Named("BLACK")
  const BLUE: Color := Named("BLUE")
  const CYAN: Color := Named("CYAN")
  const GRAY: Color := Named("GRAY")
  const B_RED: Color := Named("B_RED")
  const B_GREEN: Color := Named("B_GREEN")
  const B_YELLOW: Color := Named("B_YELLOW")
  const B_WHITE: Color := Named("B_WHITE")

  /** The tables of `Palette` (fsel/lib/tui/palette.py): background, regular and match foreground per row. */
  const TUI_TABLES: Tables := Tables(
    [[BLACK, B_GREEN, B_RED], [BLUE, B_GREEN, B_RED], [BLACK, B_GREEN, B_RED], [CYAN, B_GREEN, B_RED]],
    [[BLACK, B_YELLOW, B_RED], [BLUE, B_YELLOW, B_RED], [BLACK, B_YELLOW, B_RED], [CYAN, B_YELLOW, B_RED]],
    [[BLACK, Rgb(192, 48, 48), Rgb(255, 64, 64)], [BLUE, Rgb(192, 48, 48), Rgb(255, 64, 64)],
     [BLACK, Rgb(192, 48, 48), Rgb(255, 64, 64)], [CYAN, Rgb(192, 48, 48), Rgb(255, 64, 64)]],
    [[BLACK, B_WHITE, B_RED], [BLUE, B_WHITE, B_RED], [BLACK, B_WHITE, B_RED], [CYAN, B_WHITE, B_RED]],
    [[BLACK, GRAY, B_RED], [BLUE, GRAY, B_RED], [BLACK, GRAY, B_RED], [CYAN, BLACK, B_RED]])

  /** Both item models use the same directory flag, so the category chain of `palette` is the one `_get_palette` runs. */
  lemma SameDirectoryFlag()
    ensures ListItemInfo.FLAG_DIRECTORY == ItemModel.FLAG_DIRECTORY
  {
  }

  /** `StyleCombiner._get_palette`: the row of the `Palette` tables for the entry. */
  function GetPalette(attrs: nat, focusedList: bool, focusedEntry: bool): (r: seq<Color>)
    ensures |r| == 3
    ensures !TestBit(attrs, 15) ==> r[C_IDX_REG_FG] == (if focusedList && focusedEntry then BLACK else GRAY)
    ensures TestBit(attrs, 15) && TestBit(attrs, 9) ==> r[C_IDX_REG_FG] == B_GREEN
    ensures TestBit(attrs, 15) && !TestBit(attrs, 9) && !TestBit(attrs, 10) && TestBit(attrs, 11) ==>
      r[C_IDX_REG_FG] == Rgb(192, 48, 48)
    ensures r[C_IDX_BG] == if !focusedEntry then BLACK else if focusedList then CYAN else BLUE
  {
    PaletteFor(TUI_TABLES, attrs, focusedList, focusedEntry)
  }

  /**
   * A style combiner: the palette row chosen when it is made; the styles it
   * produces keep a span's own colours and fill in the row's.
   */
  class StyleCombiner {
    const palette: seq<Color>

    constructor (attrs: nat, focusedList: bool, focusedEntry: bool)
      ensures palette == GetPalette(attrs, focusedList, focusedEntry)
      ensures |palette| == 3
    {
      palette := GetPalette(attrs, focusedList, focusedEntry);
    }

    /**
     * `style_for(base_attr, style)`: the span's attributes plus `baseAttr`,
     * its own colours where it has them and the palette's regular
     * foreground and background where it does not.
     */
    function StyleFor(baseAttr: nat, style: Style): (r: Style)
      requires |palette| == 3
      ensures forall k: nat :: TestBit(r.attr, k) <==> TestBit(style.attr, k) || TestBit(baseAttr, k)
      ensures r.fg == Some(style.fg.GetOr(palette[C_IDX_REG_FG]))
      ensures r.bg == Some(style.bg.GetOr(palette[C_IDX_BG]))
      ensures style.fg.Some? ==> r.fg == style.fg
      ensures style.bg.Some? ==> r.bg == style.bg
    {
      forall k: nat
        ensures TestBit(BitOr(style.attr, baseAttr), k) <==> TestBit(style.attr, k) || TestBit(baseAttr, k)
      {
        BitOrTest(style.attr, baseAttr, k);
      }
      Style(
        BitOr(style.attr, baseAttr),
        if style.fg.Some? then style.fg else Some(palette[C_IDX_REG_FG]),
        if style.bg.Some? then style.bg else Some(palette[C_IDX_BG]))
    }

    /**
     * `match_style_for(style)`: `style_for` with the emphasised-background
     * mask `mask` (a constant of the output buffer): every bit of the mask is
     * set, the span's own bits are kept and no other bit is set; the span's
     * colours are kept and the missing ones come from the palette row.
     */
    function MatchStyleFor(mask: nat, style: Style): (r: Style)
      requires |palette| == 3
      ensures forall k: nat :: TestBit(mask, k) ==> TestBit(r.attr, k)
      ensures forall k: nat :: TestBit(r.attr, k) <==> TestBit(style.attr, k) || TestBit(mask, k)
      ensures r.fg == Some(style.fg.GetOr(palette[C_IDX_REG_FG]))
      ensures r.bg == Some(style.bg.GetOr(palette[C_IDX_BG]))
    {
      StyleFor(mask, style)
    }

    /** Combining twice with the same base attributes changes nothing more. */
    lemma StyleForIdempotent(baseAttr: nat, style: Style)
      requires |palette| == 3
      ensures StyleFor(baseAttr, StyleFor(baseAttr, style)) == StyleFor(baseAttr, style)
    {
      BitOrIdempotent(style.attr, baseAttr);
    }
  }
}
