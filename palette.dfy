/**
 * The colour selection of fsel/lib/palette.py: an entry's category comes
 * from its attribute word (the directory flag and the sticky, set-group-id
 * and set-user-id permission bits), and the row of the category's table
 * from whether the list and the entry have focus.
 */
module Palette {
  import opened Bits
  import opened Style
  import ItemModel

  /** `stat.S_ISVTX`, `stat.S_ISGID`, `stat.S_ISUID`: bits 9, 10 and 11 of `st_mode`. */
  const S_ISVTX: nat := 0x200
  const S_ISGID: nat := 0x400
  const S_ISUID: nat := 0x800

  /** Which table an entry's colours come from. */
  datatype Category = StickyFolder | SgidFolder | SuidFolder | Folder | Leaf

  /** The if/elif chain of `palette`: directories by their permission bits, in that priority, everything else a leaf. */
  function CategoryOf(attrs: nat): Category {
    var dir := BitAnd(attrs, ItemModel.FLAG_DIRECTORY) != 0;
    if dir && BitAnd(attrs, S_ISVTX) != 0 then StickyFolder
    else if dir && BitAnd(attrs, S_ISGID) != 0 then SgidFolder
    else if dir && BitAnd(attrs, S_ISUID) != 0 then SuidFolder
    else if dir then Folder
    else Leaf
  }

  /**
   * In terms of the bits: the directory flag (bit 15) alone decides leaf or
   * folder; for a directory the sticky bit (9) wins over set-group-id (10),
   * which wins over set-user-id (11).
   */
  lemma {:induction false} CategoryByBits(attrs: nat)
    ensures CategoryOf(attrs) == Leaf <==> !TestBit(attrs, 15)
    ensures CategoryOf(attrs) == StickyFolder <==> TestBit(attrs, 15) && TestBit(attrs, 9)
    ensures CategoryOf(attrs) == SgidFolder <==> TestBit(attrs, 15) && !TestBit(attrs, 9) && TestBit(attrs, 10)
    ensures CategoryOf(attrs) == SuidFolder <==>
      TestBit(attrs, 15) && !TestBit(attrs, 9) && !TestBit(attrs, 10) && TestBit(attrs, 11)
    ensures CategoryOf(attrs) == Folder <==>
      TestBit(attrs, 15) && !TestBit(attrs, 9) && !TestBit(attrs, 10) && !TestBit(attrs, 11)
  {
    Pow2Table();
    BitAndPow2(attrs, 15);
    BitAndPow2(attrs, 9);
    BitAndPow2(attrs, 10);
    BitAndPow2(attrs, 11);
  }

  /** `2 * int(focused_list) + int(focused_entry)`: one of the four rows, a different one for each combination. */
  function RowIndex(focusedList: bool, focusedEntry: bool): (r: nat)
    ensures r < 4
    ensures r / 2 == (if focusedList then 1 else 0) && r % 2 == (if focusedEntry then 1 else 0)
  {
    2 * (if focusedList then 1 else 0) + (if focusedEntry then 1 else 0)
  }

  /** The row index tells the two focus flags apart. */
  lemma RowIndexInjective(l1: bool, e1: bool, l2: bool, e2: bool)
    requires RowIndex(l1, e1) == RowIndex(l2, e2)
    ensures l1 == l2 && e1 == e2
  {
  }

  /** One palette table per category, each with a row per focus combination. */
  datatype Tables = Tables(sticky: seq<seq<Color>>, sgid: seq<seq<Color>>, suid: seq<seq<Color>>,
                           folder: seq<seq<Color>>, leaf: seq<seq<Color>>)
  {
    function Table(c: Category): seq<seq<Color>> {
      match c
      case StickyFolder => sticky
      case SgidFolder => sgid
      case SuidFolder => suid
      case Folder => folder
      case Leaf => leaf
    }

    /** Every table has its four rows. */
    predicate FourRows() {
      |sticky| == 4 && |sgid| == 4 && |suid| == 4 && |folder| == 4 && |leaf| == 4
    }
  }

  /**
   * `palette(attrs, focused_list, focused_entry)`: the row of the entry's
   * category table for the focus combination. The tables are the colour
   * constants of the program, passed in.
   */
  function PaletteFor(t: Tables, attrs: nat, focusedList: bool, focusedEntry: bool): (r: seq<Color>)
    requires t.FourRows()
    ensures var row := RowIndex(focusedList, focusedEntry);
      && (!TestBit(attrs, 15) ==> r == t.leaf[row])
      && (TestBit(attrs, 15) && TestBit(attrs, 9) ==> r == t.sticky[row])
      && (TestBit(attrs, 15) && !TestBit(attrs, 9) && TestBit(attrs, 10) ==> r == t.sgid[row])
      && (TestBit(attrs, 15) && !TestBit(attrs, 9) && !TestBit(attrs, 10) && TestBit(attrs, 11) ==> r == t.suid[row])
      && (TestBit(attrs, 15) && !TestBit(attrs, 9) && !TestBit(attrs, 10) && !TestBit(attrs, 11) ==> r == t.folder[row])
  {
    CategoryByBits(attrs);
    t.Table(CategoryOf(attrs))[RowIndex(focusedList, focusedEntry)]
  }

  /** Permission bits do not matter for a non-directory: it is coloured as a leaf whatever they are. */
  lemma LeafIgnoresPermissionBits(t: Tables, a: nat, b: nat, focusedList: bool, focusedEntry: bool)
    requires t.FourRows()
    requires !TestBit(a, 15) && !TestBit(b, 15)
    ensures PaletteFor(t, a, focusedList, focusedEntry) == PaletteFor(t, b, focusedList, focusedEntry)
  {
  }

  /** The colour constants the tables of fsel/colors.py are written with. */
  const C_BLACK: Color := Named("C_BLACK")
  const C_B_RED: Color := Named("C_B_RED")
  const C_B_WHITE: Color := Named("C_B_WHITE")
  const BLUE: Color := Named("BLUE")
  const CYAN: Color := Named("CYAN")
  const GRAY: Color := Named("GRAY")
  const B_GREEN: Color := Named("B_GREEN")
  const B_YELLOW: Color := Named("B_YELLOW")

  /** `Colors.C_STICKY_FOLDER` … `Colors.C_LEAF`: background, regular and match foreground per row. */
  const COLORS_TABLES: Tables := Tables(
    [[C_BLACK, B_GREEN, C_B_RED], [BLUE, B_GREEN, C_B_RED], [C_BLACK, B_GREEN, C_B_RED], [CYAN, B_GREEN, C_B_RED]],
    [[C_BLACK, B_YELLOW, C_B_RED], [BLUE, B_YELLOW, C_B_RED], [C_BLACK, B_YELLOW, C_B_RED], [CYAN, B_YELLOW, C_B_RED]],
    [[C_BLACK, Rgb(192, 48, 48), Rgb(255, 64, 64)], [BLUE, Rgb(192, 48, 48), Rgb(255, 64, 64)],
     [C_BLACK, Rgb(192, 48, 48), Rgb(255, 64, 64)], [CYAN, Rgb(192, 48, 48), Rgb(255, 64, 64)]],
    [[C_BLACK, C_B_WHITE, C_B_RED], [BLUE, C_B_WHITE, C_B_RED], [C_BLACK, C_B_WHITE, C_B_RED], [CYAN, C_B_WHITE, C_B_RED]],
    [[C_BLACK, GRAY, C_B_RED], [BLUE, GRAY, C_B_RED], [C_BLACK, GRAY, C_B_RED], [CYAN, C_BLACK, C_B_RED]])

  /**
   * With the program's tables: every row has its three colours; the
   * background follows the focus alone (black when the entry is not
   * highlighted, cyan in the focused list, blue elsewhere); matches are
   * bright red, in RGB for set-user-id directories; and only a highlighted
   * leaf in the focused list is written in black.
   */
  lemma ColorsTablesRows(attrs: nat, focusedList: bool, focusedEntry: bool)
    ensures COLORS_TABLES.FourRows()
    ensures var r := PaletteFor(COLORS_TABLES, attrs, focusedList, focusedEntry);
      && |r| == 3
      && r[0] == (if !focusedEntry then C_BLACK else if focusedList then CYAN else BLUE)
      && r[2] == (if CategoryOf(attrs) == SuidFolder then Rgb(255, 64, 64) else C_B_RED)
      && (r[1] == C_BLACK <==> CategoryOf(attrs) == Leaf && focusedList && focusedEntry)
  {
  }
}
