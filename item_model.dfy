/**
 * ItemModel (fsel/item_model.py): the same entry queries as
 * ListItemInfoService, on positional `(name, attrs, description)` tuples.
 */
module ItemModel {
  import opened Wrappers
  import opened Bits
  import LI = ListItemInfo

  /** `(name, attrs, description)`. */
  type Item = (string, nat, Option<string>)

  const FLAG_DIRECTORY: nat := 0x8000
  const FLAG_ITALIC: nat := 0x10000

  function Attrs(item: Item): nat {
    item.1
  }

  predicate IsLeaf(item: Item) {
    BitAnd(item.1, FLAG_DIRECTORY) == 0
  }

  predicate IsItalic(item: Item) {
    BitAnd(item.1, FLAG_ITALIC) != 0
  }

  function ItemFileName(item: Item): string {
    item.0
  }

  function ItemText(item: Item): string {
    if item.2.Some? then item.0 + " " + LI.DESCRIPTION_ON + item.2.value + LI.DESCRIPTION_OFF
    else item.0
  }

  function ItemTextLength(item: Item): nat {
    if item.2.Some? then |item.0| + |" "| + |item.2.value| else |item.0|
  }

  /** The largest display length; Python's `max` raises on an empty list. */
  function MaxItemTextLength(items: seq<Item>): nat
    requires |items| > 0
  {
    if |items| == 1 then ItemTextLength(items[0])
    else
      var rest := MaxItemTextLength(items[1..]);
      if ItemTextLength(items[0]) >= rest then ItemTextLength(items[0]) else rest
  }

  function IndexOfItemFileName(fileName: string, items: seq<Item>): Option<nat> {
    if |items| == 0 then None
    else if fileName == ItemFileName(items[0]) then Some(0)
    else
      match IndexOfItemFileName(fileName, items[1..])
      case None => None
      case Some(i) => Some(i + 1)
  }

  /** The record an item tuple corresponds to. */
  function ToListItem(item: Item): LI.ListItem {
    LI.ListItem(item.0, item.1, item.2)
  }

  function ToListItems(items: seq<Item>): (r: seq<LI.ListItem>)
    ensures |r| == |items|
    ensures forall i :: 0 <= i < |items| ==> r[i] == ToListItem(items[i])
  {
    seq(|items|, i requires 0 <= i < |items| => ToListItem(items[i]))
  }

  /**
   * The tuple model and the record model agree on every query: the
   * directory bit is 0x8000 of `item[1]`, italic is 0x10000, the display
   * length is `len(item[0])` plus `1 + len(item[2])` when there is a
   * description.
   */
  lemma ItemQueriesAgree(item: Item)
    ensures IsLeaf(item) <==> LI.IsLeaf(ToListItem(item))
    ensures IsLeaf(item) <==> !TestBit(item.1, 15)
    ensures IsItalic(item) <==> TestBit(item.1, 16)
    ensures ItemText(item) == LI.ItemText(ToListItem(item))
    ensures ItemTextLength(item) == if item.2.Some? then |item.0| + 1 + |item.2.value| else |item.0|
  {
    LI.IsLeafIff(ToListItem(item));
    LI.CosmeticFlagsIff(ToListItem(item));
  }

  /** The maximum over tuples is the maximum over the corresponding records. */
  lemma {:induction false} MaxItemTextLengthAgrees(items: seq<Item>)
    requires |items| > 0
    ensures MaxItemTextLength(items) == LI.MaxItemTextLength(ToListItems(items))
    ensures forall i :: 0 <= i < |items| ==> ItemTextLength(items[i]) <= MaxItemTextLength(items)
  {
    if |items| > 1 {
      MaxItemTextLengthAgrees(items[1..]);
      assert ToListItems(items)[1..] == ToListItems(items[1..]);
      assert forall i :: 1 <= i < |items| ==> items[i] == items[1..][i - 1];
    }
  }

  /** The first index with a matching name is the same in both models. */
  lemma {:induction false} IndexOfItemFileNameAgrees(fileName: string, items: seq<Item>)
    ensures IndexOfItemFileName(fileName, items) == LI.IndexOfItemFileName(fileName, ToListItems(items))
  {
    if |items| > 0 {
      IndexOfItemFileNameAgrees(fileName, items[1..]);
      assert ToListItems(items)[1..] == ToListItems(items[1..]);
    }
  }
}
