/**
 * One pane (fsel/lib/custom_list_box.py): a scrolling list of entries with a
 * cursor, its full listing, and the incremental filter that narrows it.
 */
module CustomListBox {
  import opened Wrappers
  import opened PyStr
  import opened ListItemInfo

  /** The filter keeps an entry whose name contains `s`, and always keeps the current entry. */
  predicate Keeps(item: ListItem, cur: ListItem, s: string) {
    Contains(item.name, s) || item == cur
  }

  /** The entries of `all` the filter keeps, in their original order. */
  function Kept(all: seq<ListItem>, cur: ListItem, s: string): seq<ListItem>
  {
    if |all| == 0 then []
    else
      var last := all[|all| - 1];
      Kept(all[..|all| - 1], cur, s) + (if Keeps(last, cur, s) then [last] else [])
  }

  /** Where the cursor lands in the filtered list: the position of the (last) entry equal to `cur`, else 0. */
  function NewCurrentLine(all: seq<ListItem>, cur: ListItem, s: string): nat
  {
    if |all| == 0 then 0
    else if all[|all| - 1] == cur then |Kept(all[..|all| - 1], cur, s)|
    else NewCurrentLine(all[..|all| - 1], cur, s)
  }

  /** Some entry's name contains `s`. */
  predicate AnyMatch(all: seq<ListItem>, s: string) {
    exists j :: 0 <= j < |all| && Contains(all[j].name, s)
  }

  /** An entry is kept exactly when it is listed and the filter keeps it. */
  lemma {:induction false} KeptMembers(all: seq<ListItem>, cur: ListItem, s: string, x: ListItem)
    ensures x in Kept(all, cur, s) <==> x in all && Keeps(x, cur, s)
    decreases |all|
  {
    if |all| > 0 {
      KeptMembers(all[..|all| - 1], cur, s, x);
      assert all == all[..|all| - 1] + [all[|all| - 1]];
    }
  }

  /** The filter distributes over concatenation, so it keeps the original order. */
  lemma {:induction false} KeptAppend(a: seq<ListItem>, b: seq<ListItem>, cur: ListItem, s: string)
    ensures Kept(a + b, cur, s) == Kept(a, cur, s) + Kept(b, cur, s)
    decreases |b|
  {
    if |b| > 0 {
      var b' := b[..|b| - 1];
      assert (a + b)[..|a + b| - 1] == a + b';
      KeptAppend(a, b', cur, s);
    } else {
      assert a + b == a;
    }
  }

  /** Filtering with the empty string keeps the whole listing. */
  lemma {:induction false} KeptEverythingForEmpty(all: seq<ListItem>, cur: ListItem)
    ensures Kept(all, cur, "") == all
    decreases |all|
  {
    if |all| > 0 {
      KeptEverythingForEmpty(all[..|all| - 1], cur);
      ContainsEmpty(all[|all| - 1].name);
      assert all == all[..|all| - 1] + [all[|all| - 1]];
    }
  }

  /** When the current entry is listed, the new cursor line points at it in the filtered list. */
  lemma {:induction false} CursorFollowsEntry(all: seq<ListItem>, cur: ListItem, s: string)
    requires cur in all
    ensures NewCurrentLine(all, cur, s) < |Kept(all, cur, s)|
    ensures Kept(all, cur, s)[NewCurrentLine(all, cur, s)] == cur
    decreases |all|
  {
    var init := all[..|all| - 1];
    if all[|all| - 1] != cur {
      assert all == init + [all[|all| - 1]];
      assert cur in init;
      CursorFollowsEntry(init, cur, s);
    }
  }

  /**
   * `make_cur_line_visible`: the first visible row after scrolling so that
   * row `cur` shows in a window of `height` rows that started at `top`.
   * A cursor exactly `height` rows below `top` does not scroll.
   */
  function ScrolledTop(top: int, cur: int, height: int): (r: int)
    ensures r >= 0
    ensures cur < top ==> r == Max0(cur)
    ensures top <= cur <= top + height ==> r == Max0(top)
    ensures cur > top + height && height >= 1 ==> r == Max0(cur - height + 1)
    ensures cur > top + height && height < 1 ==> r == Max0(cur)
  {
    var overshoot := cur - (top + height);
    var t1 := if overshoot > 0 then top + overshoot + 1 else top;
    var undershoot := t1 - cur;
    var t2 := if undershoot > 0 then t1 - undershoot else t1;
    Max0(t2)
  }

  /**
   * After scrolling, the cursor is at most `height` rows below the first
   * visible row: it is visible, or sits on the row just below the window.
   */
  lemma CursorNearWindow(top: int, cur: int, height: int)
    requires 0 <= cur && height >= 1
    ensures ScrolledTop(top, cur, height) <= cur <= ScrolledTop(top, cur, height) + height
  {
  }

  /** The cursor on the row just below a window that starts at a non-negative row leaves it unscrolled and hidden. */
  lemma CursorJustBelowStaysHidden(top: int, height: int)
    requires 0 <= top && height >= 1
    ensures ScrolledTop(top, top + height, height) == top
    ensures var r := ScrolledTop(top, top + height, height); !(r <= top + height < r + height)
  {
  }

  /**
   * A pane: `allItems` is the full listing it was created with, `items` what
   * the filter currently shows, `curLine` the cursor and `topLine` the first
   * visible row. The toolkit widget it extends is reduced to these fields.
   */
  class ListBox {
    const width: int
    var height: int
    var items: seq<ListItem>
    const allItems: seq<ListItem>
    var curLine: int
    var topLine: int
    var choice: int
    var focus: bool
    const folder: seq<string>

    /** The cursor is on a shown entry, and every shown entry comes from the full listing. */
    ghost predicate Valid()
      reads this
    {
      0 <= curLine < |items| && forall x :: x in items ==> x in allItems
    }

    /** The entry under the cursor. */
    function Selected(): ListItem
      reads this
      requires Valid()
    {
      items[curLine]
    }

    constructor (w: int, h: int, entries: seq<ListItem>, path: seq<string>)
      ensures width == w && height == h && folder == path
      ensures items == entries && allItems == entries
      ensures curLine == 0 && topLine == 0 && choice == 0 && !focus
      ensures |entries| > 0 ==> Valid()
    {
      width := w;
      height := h;
      items := entries;
      allItems := entries;
      folder := path;
      curLine := 0;
      topLine := 0;
      choice := 0;
      focus := false;
    }

    /** Scrolls so that the cursor row is (nearly) visible. */
    method MakeCurLineVisible()
      modifies this`topLine
      ensures topLine == ScrolledTop(old(topLine), curLine, height)
    {
      var overshoot := curLine - (topLine + height);
      if overshoot > 0 {
        topLine := topLine + overshoot + 1;
      }
      var undershoot := topLine - curLine;
      if undershoot > 0 {
        topLine := topLine - undershoot;
      }
      topLine := if topLine < 0 then 0 else topLine;
    }

    /**
     * The filter pass over the full listing: whether any name contains `s`,
     * the cursor line for the filtered list, and the filtered list. The pane
     * itself is not changed.
     */
    method Search(s: string) returns (found: bool, newCurrentLine: nat, content: seq<ListItem>)
      requires Valid()
      ensures content == Kept(allItems, Selected(), s)
      ensures newCurrentLine == NewCurrentLine(allItems, Selected(), s)
      ensures found <==> AnyMatch(allItems, s)
    {
      content := [];
      var cur := items[curLine];
      newCurrentLine := 0;
      found := false;
      var i := 0;
      while i < |allItems|
        invariant 0 <= i <= |allItems|
        invariant content == Kept(allItems[..i], cur, s)
        invariant newCurrentLine == NewCurrentLine(allItems[..i], cur, s)
        invariant found <==> AnyMatch(allItems[..i], s)
      {
        var item := allItems[i];
        assert allItems[..i + 1][..i] == allItems[..i];
        var isCurrent := item == cur;
        var isMatch := Find(item.name, s) >= 0;
        FindFromFirst(item.name, s, 0);
        if isMatch {
          found := true;
        }
        if isCurrent {
          newCurrentLine := |content|;
        }
        if isMatch || isCurrent {
          content := content + [item];
        }
        i := i + 1;
      }
      assert allItems[..i] == allItems;
    }

    /** Replaces the shown entries (the toolkit's `set_items`). */
    method SetItems(content: seq<ListItem>)
      modifies this`items
      ensures items == content
    {
      items := content;
    }

    /**
     * One pane's part of the second pass of the pane stack's `search`: the
     * pane shows its filtered listing, the cursor staying on the entry it was on.
     */
    method Narrow(s: string)
      requires Valid()
      modifies this`items, this`curLine
      ensures Valid()
      ensures items == Kept(allItems, old(Selected()), s) && Selected() == old(Selected())
    {
      var _, newCurrentLine, content := Search(s);
      CursorFollowsEntry(allItems, Selected(), s);
      forall x | x in content
        ensures x in allItems
      {
        KeptMembers(allItems, Selected(), s, x);
      }
      SetItems(content);
      curLine := newCurrentLine;
    }
  }
}
