/**
 * The older entry model of fsel/fsel.py (`Model`): an entry is a
 * `(name, is_leaf)` pair, as the older file-system model and the JSON
 * model list them.
 */
module LegacyModel {
  import opened Wrappers
  import ItemModel
  import Bits

  /** `(name, is_leaf)`. */
  type Item = (string, bool)

  /** `is_leaf(item)`: the second component. */
  predicate IsLeaf(item: Item) {
    item.1
  }

  /** `item_text(item)`: the name. */
  function ItemText(item: Item): string {
    item.0
  }

  /** `max_item_text_length(items)`; Python's `max` raises on an empty list. */
  function MaxItemTextLength(items: seq<Item>): (m: nat)
    requires |items| > 0
    ensures forall i :: 0 <= i < |items| ==> |ItemText(items[i])| <= m
    ensures exists i :: 0 <= i < |items| && |ItemText(items[i])| == m
  {
    if |items| == 1 then |ItemText(items[0])|
    else
      var rest := MaxItemTextLength(items[1..]);
      assert forall i :: 1 <= i < |items| ==> items[i] == items[1..][i - 1];
      if |ItemText(items[0])| >= rest then |ItemText(items[0])| else rest
  }

  /** `index_of_item_text(text, items)`: the first index whose name is `text`, `None` when there is none. */
  function IndexOfItemText(text: string, items: seq<Item>): (r: Option<nat>)
    ensures r.Some? ==> r.value < |items| && ItemText(items[r.value]) == text
    ensures r.Some? ==> forall j :: 0 <= j < r.value ==> ItemText(items[j]) != text
    ensures r.None? ==> forall j :: 0 <= j < |items| ==> ItemText(items[j]) != text
  {
    if |items| == 0 then None
    else if text == ItemText(items[0]) then Some(0)
    else
      match IndexOfItemText(text, items[1..])
      case None => None
      case Some(i) => Some(i + 1)
  }

  /** The newer tuple an older entry corresponds to: a folder carries the directory flag, and there is no description. */
  function ToItem(item: Item): ItemModel.Item {
    (item.0, if item.1 then 0 else ItemModel.FLAG_DIRECTORY, None)
  }

  function ToItems(items: seq<Item>): (r: seq<ItemModel.Item>)
    ensures |r| == |items|
    ensures forall i :: 0 <= i < |items| ==> r[i] == ToItem(items[i])
  {
    seq(|items|, i requires 0 <= i < |items| => ToItem(items[i]))
  }

  /** The older and the newer model agree on an entry's leaf test, name and display length. */
  lemma EntryAgrees(item: Item)
    ensures IsLeaf(item) <==> ItemModel.IsLeaf(ToItem(item))
    ensures ItemText(item) == ItemModel.ItemFileName(ToItem(item))
    ensures |ItemText(item)| == ItemModel.ItemTextLength(ToItem(item))
  {
    if !item.1 {
      Bits.Pow2Table();
      Bits.BitAndPow2(ItemModel.FLAG_DIRECTORY, 15);
      Bits.Pow2HasBit(15);
    }
  }

  /** Name lookup finds the same index in both models. */
  lemma {:induction false} IndexOfAgrees(text: string, items: seq<Item>)
    ensures IndexOfItemText(text, items) == ItemModel.IndexOfItemFileName(text, ToItems(items))
  {
    if |items| > 0 {
      IndexOfAgrees(text, items[1..]);
      assert ToItems(items)[1..] == ToItems(items[1..]);
    }
  }
}
