/**
 * A selectable entry (fsel/lib/list_item.py) and the queries of
 * ListItemInfoService (fsel/lib/list_item_info_service.py): flag tests on
 * the attribute word, display text and its length, and lookup by name.
 */
module ListItemInfo {
  import opened Wrappers
  import opened Bits
  import opened Style

  /** An entry: file name, attribute word (st_mode plus the flags below), optional description. */
  datatype ListItem = ListItem(name: string, attrs: nat, description: Option<string>)

  const FLAG_DIRECTORY: nat := 0x8000
  const FLAG_ITALIC: nat := 0x10000
  const FLAG_STRIKE_THRU: nat := 0x2_0000

  /** Each flag is a single bit: 15, 16 and 17. */
  lemma FlagBits()
    ensures FLAG_DIRECTORY == Pow2(15)
    ensures FLAG_ITALIC == Pow2(16)
    ensures FLAG_STRIKE_THRU == Pow2(17)
  {
    Pow2Table();
  }

  function Attrs(item: ListItem): nat {
    item.attrs
  }

  predicate IsLeaf(item: ListItem) {
    BitAnd(item.attrs, FLAG_DIRECTORY) == 0
  }

  predicate IsItalic(item: ListItem) {
    BitAnd(item.attrs, FLAG_ITALIC) != 0
  }

  predicate IsStrikeThru(item: ListItem) {
    BitAnd(item.attrs, FLAG_STRIKE_THRU) != 0
  }

  /** An entry is a leaf exactly when its directory bit (bit 15) is clear. */
  lemma IsLeafIff(item: ListItem)
    ensures IsLeaf(item) <==> !TestBit(item.attrs, 15)
  {
    FlagBits();
    BitAndPow2(item.attrs, 15);
  }

  /** Italic is bit 16, strike-through is bit 17. */
  lemma CosmeticFlagsIff(item: ListItem)
    ensures IsItalic(item) <==> TestBit(item.attrs, 16)
    ensures IsStrikeThru(item) <==> TestBit(item.attrs, 17)
  {
    FlagBits();
    BitAndPow2(item.attrs, 16);
    BitAndPow2(item.attrs, 17);
  }

  function ItemFileName(item: ListItem): string {
    item.name
  }

  /** Escape codes around the description: 256-colour foreground 220, then reset (ECMA-48 SGR). */
  const ESC: char := 27 as char
  const DESCRIPTION_ON: string := [ESC] + "[38;5;220m"
  const DESCRIPTION_OFF: string := [ESC] + "[0m"

  /** Display text: the name, or the name, a space and the coloured description. */
  function ItemText(item: ListItem): string {
    if item.description.Some? then
      item.name + " " + DESCRIPTION_ON + item.description.value + DESCRIPTION_OFF
    else item.name
  }

  /** Display length: the escape codes are not counted. */
  function ItemTextLength(item: ListItem): (n: nat)
    ensures item.description.None? ==> n == |item.name|
    ensures item.description.Some? ==> n == |item.name| + 1 + |item.description.value|
  {
    if item.description.Some? then |item.name| + |" "| + |item.description.value|
    else |item.name|
  }

  /**
   * The display text begins with the name (and a space when there is a
   * description); with a description it is longer than the counted length,
   * because the escape codes are in the text but not in the count.
   */
  lemma ItemTextShape(item: ListItem)
    ensures item.description.None? ==> ItemText(item) == item.name && |ItemText(item)| == ItemTextLength(item)
    ensures item.description.Some? ==>
      ItemText(item)[..|item.name| + 1] == item.name + " " && |ItemText(item)| > ItemTextLength(item)
  {
    if item.description.Some? {
      var t := ItemText(item);
      assert t == (item.name + " ") + (DESCRIPTION_ON + item.description.value + DESCRIPTION_OFF);
    }
  }

  /** `max(item_text_length(i) for i in items)`; Python raises on an empty list. */
  function MaxItemTextLength(items: seq<ListItem>): (m: nat)
    requires |items| > 0
    ensures forall i :: 0 <= i < |items| ==> ItemTextLength(items[i]) <= m
    ensures exists i :: 0 <= i < |items| && ItemTextLength(items[i]) == m
  {
    if |items| == 1 then ItemTextLength(items[0])
    else
      var rest := MaxItemTextLength(items[1..]);
      assert forall i :: 1 <= i < |items| ==> items[i] == items[1..][i - 1];
      if ItemTextLength(items[0]) >= rest then ItemTextLength(items[0]) else rest
  }

  /** Rich text: the name alone, or name, a space and the description in yellow. */
  function ItemRichText(item: ListItem): (r: seq<(string, Style)>)
    ensures item.description.None? ==> r == [(item.name, PLAIN)]
    ensures item.description.Some? ==> |r| == 3 && r[0] == (item.name, PLAIN) && r[1] == (" ", PLAIN)
    ensures item.description.Some? ==> r[2].0 == item.description.value && r[2].1.fg == Some(YELLOW)
  {
    var first := [(item.name, PLAIN)];
    if item.description.Some? then
      first + [(" ", PLAIN), (item.description.value, Style(0, Some(YELLOW), None))]
    else first
  }

  const YELLOW: Color := Named("YELLOW")

  /** The index of the first entry called `fileName`, or None. */
  function IndexOfItemFileName(fileName: string, items: seq<ListItem>): (r: Option<nat>)
    ensures r.Some? ==> r.value < |items| && items[r.value].name == fileName
    ensures r.Some? ==> forall j :: 0 <= j < r.value ==> items[j].name != fileName
    ensures r.None? <==> forall j :: 0 <= j < |items| ==> items[j].name != fileName
  {
    if |items| == 0 then None
    else if fileName == ItemFileName(items[0]) then Some(0)
    else
      match IndexOfItemFileName(fileName, items[1..])
      case None =>
        assert forall j :: 1 <= j < |items| ==> items[j] == items[1..][j - 1];
        None
      case Some(i) =>
        assert forall j :: 1 <= j < |items| ==> items[j] == items[1..][j - 1];
        Some(i + 1)
  }
}
