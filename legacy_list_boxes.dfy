/**
 * The older pane stack of fsel/fsel.py (`ListBoxes` over `FsModel`): one
 * pane per path segment, the first listing the root and each further one
 * listing the entry selected in the pane before it. The panes are values
 * here: within the stack only freshly made panes are changed.
 */
module LegacyListBoxes {
  import opened Wrappers
  import opened LegacyModel
  import opened LegacyFsModel
  import CustomListBox
  import PyStr

  /** The entry lister (`FsModel.list_items`): the entries under a path, in display order. */
  type Lister = seq<string> -> seq<Item>

  /** The listed tree has depth below `depth`: nothing is listed at that depth or deeper. */
  ghost predicate Bounded(lister: Lister, depth: nat) {
    forall p: seq<string> {:trigger lister(p)} :: |p| >= depth ==> lister(p) == []
  }

  /**
   * `make_cur_line_visible` of the older pane: scroll down so that the cursor
   * is at most `height` rows below the first visible row, then up so that it
   * is not above it. Unlike the newer pane it does not clamp at 0.
   */
  function LegacyScrolledTop(top: int, cur: int, height: int): (r: int)
    ensures cur < top ==> r == cur
    ensures top <= cur <= top + height ==> r == top
    ensures cur > top + height && height >= 1 ==> r == cur - height + 1
    ensures cur > top + height && height < 1 ==> r == cur
  {
    var overshoot := cur - (top + height);
    var t1 := if overshoot > 0 then top + overshoot + 1 else top;
    var undershoot := t1 - cur;
    if undershoot > 0 then t1 - undershoot else t1
  }

  /** For a cursor and a first row that are not negative the older and the newer pane scroll alike. */
  lemma LegacyScrollAgrees(top: int, cur: int, height: int)
    requires 0 <= top && 0 <= cur
    ensures LegacyScrolledTop(top, cur, height) == CustomListBox.ScrolledTop(top, cur, height)
    ensures LegacyScrolledTop(top, cur, height) >= 0
  {
  }

  /**
   * A pane (`CustomListBox` of fsel/fsel.py): its listing, the cursor, the
   * remembered choice, the first visible row, the focus and the folder it lists.
   */
  datatype Pane = Pane(width: nat, height: nat, items: seq<Item>, curLine: nat, choice: nat,
                       topLine: int, focus: bool, folder: seq<string>)
  {
    /** The cursor is on a listed entry. */
    predicate Ok() {
      curLine < |items|
    }

    /** The entry under the cursor. */
    function Selected(): Item
      requires Ok()
    {
      items[curLine]
    }
  }

  predicate AllOk(bs: seq<Pane>) {
    forall k :: 0 <= k < |bs| ==> bs[k].Ok()
  }

  /** The names selected in panes `bs`, in order. */
  function Names(bs: seq<Pane>): (r: seq<string>)
    requires AllOk(bs)
    ensures |r| == |bs|
  {
    seq(|bs|, k requires 0 <= k < |bs| => ItemText(bs[k].Selected()))
  }

  /** Python's `boxes[index]`: a negative index counts from the end, and `None` stands for `IndexError`. */
  function PyIndex(bs: seq<Pane>, index: int): (r: Option<Pane>)
    ensures r.Some? <==> -|bs| <= index < |bs|
    ensures 0 <= index < |bs| ==> r == Some(bs[index])
  {
    if 0 <= index < |bs| then Some(bs[index])
    else if -|bs| <= index < 0 then Some(bs[index + |bs|])
    else None
  }

  /**
   * `is_at_leaf(index)` as Python evaluates it for any index: `None` where
   * the indexing raises.
   */
  function IsAtLeafAsWritten(bs: seq<Pane>, index: int): (r: Option<bool>)
    requires AllOk(bs)
    ensures r.None? <==> PyIndex(bs, index).None?
    ensures 0 <= index < |bs| ==> r == Some(IsLeaf(bs[index].Selected()))
  {
    var b := PyIndex(bs, index);
    if b.None? then None else Some(IsLeaf(b.value.Selected()))
  }

  class ListBoxes {
    const lister: Lister
    ghost const depth: nat
    const treeModel: FsModel
    var boxes: seq<Pane>

    /** Every pane lists what the lister gives for its folder, its cursor on an entry. */
    predicate Listed(bs: seq<Pane>) {
      forall k :: 0 <= k < |bs| ==> bs[k].Ok() && bs[k].items == lister(bs[k].folder)
    }

    /** Appending a pane that lists its folder keeps every pane listed. */
    lemma ListedSnoc(bs: seq<Pane>, b: Pane)
      requires Listed(bs) && b.Ok() && b.items == lister(b.folder)
      ensures Listed(bs + [b])
    {
      forall k | 0 <= k < |bs| + 1
        ensures (bs + [b])[k].Ok() && (bs + [b])[k].items == lister((bs + [b])[k].folder)
      {
        if k < |bs| {
          assert (bs + [b])[k] == bs[k];
        }
      }
    }

    ghost predicate Valid()
      reads this
    {
      Bounded(lister, depth) && |boxes| <= depth && Listed(boxes)
    }

    /**
     * `make_box(path, items)`: a pane as wide as the longest name and as high
     * as the listing, its cursor and its choice on the entry the model
     * recalls for `path`, else on the first entry.
     */
    function MakeBox(path: seq<string>, items: seq<Item>): (box: Pane)
      reads treeModel
      requires |items| > 0
      ensures box.Ok() && box.items == items && box.folder == path
      ensures box.width == MaxItemTextLength(items) && box.height == |items|
      ensures box.topLine == 0 && !box.focus && box.choice == box.curLine
      ensures treeModel.RecallChoice(path, items).Some? ==> box.curLine == treeModel.RecallChoice(path, items).value
      ensures treeModel.RecallChoice(path, items).None? ==> box.curLine == 0
    {
      var choice := treeModel.RecallChoice(path, items);
      ChoiceNamesStoredEntry(treeModel.visitHistory, treeModel.rootHistory, StringPath(path), items);
      var c := if choice.None? then 0 else choice.value;
      Pane(MaxItemTextLength(items), |items|, items, c, c, 0, false, path)
    }

    /** `make_box_or_none(path)`: no pane when the listing under `path` is empty. */
    function MakeBoxOrNone(path: seq<string>): (r: Option<Pane>)
      reads treeModel
      ensures r.None? <==> lister(path) == []
      ensures r.Some? ==> r.value == MakeBox(path, lister(path))
    {
      var items := lister(path);
      if |items| == 0 then None else Some(MakeBox(path, items))
    }

    /**
     * Pane `k` of the `n` panes `boxes_for_path` builds for `initialPath`:
     * the pane made for the prefix of `k` segments; all but the last have
     * their cursor on the next segment (on the first entry when it is not
     * listed), the last one has the focus.
     */
    function BuiltPane(initialPath: seq<string>, k: nat, n: nat): (b: Pane)
      reads treeModel
      requires k < n <= |initialPath| + 1 && lister(initialPath[..k]) != []
      ensures b.Ok() && b.items == lister(initialPath[..k]) && b.folder == initialPath[..k]
      ensures b.focus <==> k == n - 1
      ensures k < n - 1 ==> b.choice == b.curLine
      ensures k < n - 1 && (exists j :: 0 <= j < |b.items| && ItemText(b.items[j]) == initialPath[k]) ==>
        ItemText(b.Selected()) == initialPath[k]
      ensures k < n - 1 && (forall j :: 0 <= j < |b.items| ==> ItemText(b.items[j]) != initialPath[k]) ==>
        b.curLine == 0
    {
      var b := MakeBox(initialPath[..k], lister(initialPath[..k]));
      if k == n - 1 then b.(focus := true)
      else
        var c := IndexOfItemText(initialPath[k], b.items).GetOr(0);
        b.(curLine := c, choice := c)
    }

    /**
     * What `boxes_for_path(initialPath)` builds: one pane per prefix of
     * `initialPath`, up to the whole path, stopping before the first empty
     * listing, each pane as `BuiltPane` says.
     */
    ghost predicate BuiltFor(bs: seq<Pane>, initialPath: seq<string>)
      reads treeModel
    {
      && |bs| <= |initialPath| + 1 && |bs| <= depth
      && (forall j :: 0 <= j < |bs| ==> lister(initialPath[..j]) != [])
      && (|bs| <= |initialPath| ==> lister(initialPath[..|bs|]) == [])
      && (forall k :: 0 <= k < |bs| ==> bs[k] == BuiltPane(initialPath, k, |bs|))
    }

    /**
     * `boxes_for_path(initial_path)`: the panes for the prefixes of the
     * path, the cursors placed on the path and the focus on the last pane.
     */
    method BoxesForPath(initialPath: seq<string>) returns (bs: seq<Pane>)
      requires Bounded(lister, depth)
      ensures BuiltFor(bs, initialPath) && AllOk(bs)
    {
      bs := CreatePanes(initialPath);
      bs := PlaceCursors(bs, initialPath);
    }

    /** The first loop of `boxes_for_path`: `make_box_or_none` for each prefix while the listing is not empty. */
    method CreatePanes(initialPath: seq<string>) returns (bs: seq<Pane>)
      requires Bounded(lister, depth)
      ensures |bs| <= |initialPath| + 1 && |bs| <= depth
      ensures |bs| <= |initialPath| ==> lister(initialPath[..|bs|]) == []
      ensures forall j :: 0 <= j < |bs| ==>
        lister(initialPath[..j]) != [] && bs[j] == MakeBox(initialPath[..j], lister(initialPath[..j]))
    {
      bs := [];
      var index := 0;
      while true
        invariant index == |bs| <= |initialPath| && |bs| <= depth
        invariant forall j :: 0 <= j < |bs| ==>
          lister(initialPath[..j]) != [] && bs[j] == MakeBox(initialPath[..j], lister(initialPath[..j]))
        decreases |initialPath| + 1 - index
      {
        var aList := MakeBoxOrNone(initialPath[..index]);
        if aList.None? {
          break;
        }
        assert |initialPath[..index]| < depth;
        bs := bs + [aList.value];
        index := index + 1;
        if index > |initialPath| {
          break;
        }
      }
    }

    /** The second loop of `boxes_for_path`: the cursor of every pane but the last on the next segment, the last one focused. */
    method PlaceCursors(made: seq<Pane>, initialPath: seq<string>) returns (bs: seq<Pane>)
      requires |made| <= |initialPath| + 1
      requires forall j :: 0 <= j < |made| ==>
        lister(initialPath[..j]) != [] && made[j] == MakeBox(initialPath[..j], lister(initialPath[..j]))
      ensures |bs| == |made|
      ensures forall k :: 0 <= k < |bs| ==> bs[k] == BuiltPane(initialPath, k, |bs|)
    {
      bs := made;
      var i := 0;
      while i < |bs|
        invariant 0 <= i <= |bs| == |made|
        invariant forall k :: 0 <= k < i ==> bs[k] == BuiltPane(initialPath, k, |bs|)
        invariant forall k :: i <= k < |bs| ==> bs[k] == made[k]
      {
        if i == |bs| - 1 {
          bs := bs[i := bs[i].(focus := true)];
          break;
        }
        var c := IndexOfItemText(initialPath[i], bs[i].items).GetOr(0);
        bs := bs[i := bs[i].(curLine := c, choice := c)];
        i := i + 1;
      }
    }

    /**
     * What `expand_lists` makes of panes `bs`: while the last selection is a
     * directory with a non-empty listing, a pane for that listing is
     * appended; after it the expansion goes on only when it has a single
     * entry or the model recalls a name for the path it was made for.
     */
    function ExpandFrom(bs: seq<Pane>): (r: seq<Pane>)
      reads treeModel
      requires Bounded(lister, depth) && 0 < |bs| <= depth && AllOk(bs)
      ensures |bs| <= |r| <= depth && r[..|bs|] == bs && AllOk(r)
      ensures Listed(bs) ==> Listed(r)
      decreases depth - |bs|
    {
      if IsLeaf(bs[|bs| - 1].Selected()) then bs
      else
        var path := Names(bs);
        var name := treeModel.RecallChosenName(path);
        var items := lister(path);
        if items == [] then bs
        else
          var next := bs + [MakeBox(path, items)];
          assert next[..|bs|] == bs;
          if |items| == 1 || name.Some? then
            var r := ExpandFrom(next);
            assert r[..|bs|] == r[..|next|][..|bs|];
            r
          else next
    }

    /** One step of the expansion: it stops at a leaf or an empty listing, else it goes on from the appended pane or stops after it. */
    lemma ExpandFromOnce(bs: seq<Pane>)
      requires Bounded(lister, depth) && 0 < |bs| <= depth && AllOk(bs)
      ensures IsLeaf(bs[|bs| - 1].Selected()) || lister(Names(bs)) == [] ==> ExpandFrom(bs) == bs
      ensures !IsLeaf(bs[|bs| - 1].Selected()) && lister(Names(bs)) != [] ==>
        var next := bs + [MakeBox(Names(bs), lister(Names(bs)))];
        |next| <= depth && AllOk(next) &&
        ExpandFrom(bs) == if |lister(Names(bs))| == 1 || treeModel.RecallChosenName(Names(bs)).Some? then ExpandFrom(next) else next
    {
    }

    /** Every pane the expansion appends lists the path of the selections before it, and follows a directory. */
    lemma {:induction false} ExpandFromAppends(bs: seq<Pane>, k: nat)
      requires Bounded(lister, depth) && 0 < |bs| <= depth && AllOk(bs)
      requires |bs| <= k < |ExpandFrom(bs)|
      ensures var r := ExpandFrom(bs);
        && r[k].folder == Names(r[..k])
        && r[k].items == lister(r[k].folder)
        && r[k] == MakeBox(r[k].folder, r[k].items)
        && !IsLeaf(r[k - 1].Selected())
      decreases depth - |bs|
    {
      var r := ExpandFrom(bs);
      var path := Names(bs);
      var next := bs + [MakeBox(path, lister(path))];
      assert r != bs;
      if k == |bs| {
        assert r[..|next|] == next;
        assert r[..k] == bs;
      } else {
        assert r == ExpandFrom(next);
        ExpandFromAppends(next, k);
      }
    }

    /**
     * Where the expansion stops: at a leaf, at an empty listing, or after
     * appending a pane of two or more entries for whose path the model
     * recalls no name.
     */
    lemma {:induction false} ExpandFromStops(bs: seq<Pane>)
      requires Bounded(lister, depth) && 0 < |bs| <= depth && AllOk(bs)
      ensures StoppedAfter(ExpandFrom(bs), |bs|)
      decreases depth - |bs|
    {
      ExpandFromOnce(bs);
      var path := Names(bs);
      if !IsLeaf(bs[|bs| - 1].Selected()) && lister(path) != [] {
        var next := bs + [MakeBox(path, lister(path))];
        if |lister(path)| == 1 || treeModel.RecallChosenName(path).Some? {
          ExpandFromStops(next);
        } else {
          assert next[|next| - 1] == MakeBox(path, lister(path));
          assert StoppedAfter(next, |bs|);
        }
      } else {
        assert StoppedAfter(bs, |bs|);
      }
    }

    /**
     * The panes `r` end where an expansion that appended from pane `n`
     * stops: the last selection is a leaf, or its listing is empty, or a
     * pane was appended, has two or more entries and the model recalls no
     * name for its path.
     */
    ghost predicate StoppedAfter(r: seq<Pane>, n: nat)
      reads treeModel
      requires 0 < |r| && AllOk(r)
    {
      var last := r[|r| - 1];
      || IsLeaf(last.Selected())
      || lister(Names(r)) == []
      || (|r| > n && |last.items| != 1 && treeModel.RecallChosenName(last.folder).None?)
    }

    /** Between the first appended pane and the last, every appended pane has a single entry or a recalled name. */
    lemma {:induction false} ExpandFromGoesOn(bs: seq<Pane>, k: nat)
      requires Bounded(lister, depth) && 0 < |bs| <= depth && AllOk(bs)
      requires |bs| <= k < |ExpandFrom(bs)| - 1
      ensures var r := ExpandFrom(bs);
        |r[k].items| == 1 || treeModel.RecallChosenName(r[k].folder).Some?
      decreases depth - |bs|
    {
      var r := ExpandFrom(bs);
      var path := Names(bs);
      var next := bs + [MakeBox(path, lister(path))];
      assert r != bs && r != next;
      assert r == ExpandFrom(next);
      if k > |bs| {
        ExpandFromGoesOn(next, k);
      } else {
        assert r[..|next|] == next;
      }
    }

    /**
     * `expand_lists()`: the panes become their expansion. It starts from the
     * last pane, so the stack must not be empty.
     */
    method ExpandLists()
      requires Valid() && |boxes| > 0
      modifies this`boxes
      ensures Valid() && boxes == ExpandFrom(old(boxes))
    {
      while true
        invariant Valid() && |boxes| > 0 && ExpandFrom(boxes) == ExpandFrom(old(boxes))
        decreases depth - |boxes|
      {
        var stop := ExpandStep();
        if stop {
          break;
        }
      }
    }

    /**
     * One turn of `expand_lists`'s loop, from the last pane (`index` is
     * always the last pane's index): at a leaf or an empty listing it stops;
     * otherwise it appends the pane for the selected path and goes on when
     * that pane has a single entry or the model recalls a name for the path.
     */
    method ExpandStep() returns (stop: bool)
      requires Valid() && |boxes| > 0
      modifies this`boxes
      ensures Valid() && |boxes| > 0
      ensures stop ==> boxes == ExpandFrom(old(boxes))
      ensures !stop ==> |boxes| == |old(boxes)| + 1 && ExpandFrom(boxes) == ExpandFrom(old(boxes))
    {
      ghost var bs := boxes;
      var index := |boxes| - 1;
      if IsAtLeaf(index) {
        ExpandFromOnce(bs);
        return true;
      }
      var path := Path(index);
      assert boxes[..index + 1] == boxes;
      assert path == Names(bs);
      var name := treeModel.RecallChosenName(path);
      var aList := MakeBoxOrNone(path);
      if aList.None? {
        ExpandFromOnce(bs);
        return true;
      }
      ExpandFromAppend(bs, aList.value);
      boxes := boxes + [aList.value];
      if |aList.value.items| == 1 {
        return false;
      }
      return name.None?;
    }

    /** Appending the pane for the selected path: the stack stays valid, and the expansion goes on from it or ends with it. */
    lemma ExpandFromAppend(bs: seq<Pane>, b: Pane)
      requires Bounded(lister, depth) && 0 < |bs| <= depth && Listed(bs)
      requires !IsLeaf(bs[|bs| - 1].Selected()) && lister(Names(bs)) != []
      requires b == MakeBox(Names(bs), lister(Names(bs)))
      ensures |bs + [b]| <= depth && Listed(bs + [b])
      ensures |b.items| == 1 || treeModel.RecallChosenName(Names(bs)).Some? ==> ExpandFrom(bs) == ExpandFrom(bs + [b])
      ensures !(|b.items| == 1 || treeModel.RecallChosenName(Names(bs)).Some?) ==> ExpandFrom(bs) == bs + [b]
    {
      ExpandFromOnce(bs);
      ListedSnoc(bs, b);
    }

    /** `selected_item_in_list(index)`. */
    function Selected(index: int): Item
      reads this
      requires 0 <= index < |boxes| && boxes[index].Ok()
    {
      boxes[index].Selected()
    }

    /** `is_at_leaf(index)`. */
    predicate IsAtLeaf(index: int)
      reads this
      requires 0 <= index < |boxes| && boxes[index].Ok()
    {
      IsLeaf(Selected(index))
    }

    /** `path(index)`: the names selected in panes 0..index, one per pane; `[]` for index -1. */
    function Path(index: int): (p: seq<string>)
      reads this
      requires -1 <= index < |boxes| && AllOk(boxes)
      ensures |p| == index + 1
      ensures forall k :: 0 <= k <= index ==> p[k] == ItemText(boxes[k].Selected())
    {
      Names(boxes[..index + 1])
    }

    /** `items_path(index)`: the entries selected in panes 0..index. */
    function ItemsPath(index: int): (r: seq<Item>)
      reads this
      requires -1 <= index < |boxes| && AllOk(boxes)
      ensures |r| == index + 1
      ensures forall k :: 0 <= k <= index ==> r[k] == boxes[k].Selected()
      ensures forall k :: 0 <= k <= index ==> ItemText(r[k]) == Path(index)[k]
    {
      var bs := boxes;
      seq(index + 1, k requires 0 <= k <= index => bs[k].Selected())
    }

    /**
     * `max_child_height()`: the longest listing; Python's `max` raises on no
     * panes. The same definition as `ListBoxes.ListBoxes.MaxChildHeight`,
     * which the source repeats in fsel/lib/list_boxes.py.
     */
    function MaxChildHeight(): (m: nat)
      reads this
      requires |boxes| > 0
      ensures forall k :: 0 <= k < |boxes| ==> |boxes[k].items| <= m
      ensures exists k :: 0 <= k < |boxes| && |boxes[k].items| == m
    {
      var bs := boxes;
      var lengths := seq(|bs|, k requires 0 <= k < |bs| => |bs[k].items|);
      assert forall k :: 0 <= k < |bs| ==> lengths[k] == |bs[k].items|;
      PyStr.MaxOf(lengths)
    }

    /** `is_empty()`. */
    predicate IsEmpty()
      reads this
    {
      |boxes| == 0
    }

    /**
     * Builds the panes for `initialPath` and expands them. When the root
     * lists nothing there are no panes and no expansion, so `is_empty()`
     * holds; `EmptyRootRaises` shows what the unguarded call does instead.
     */
    constructor (model: FsModel, entryLister: Lister, ghost bound: nat, initialPath: seq<string>)
      requires Bounded(entryLister, bound)
      ensures Valid() && treeModel == model && lister == entryLister
      ensures IsEmpty() <==> entryLister([]) == []
      ensures !IsEmpty() ==> exists bs :: BuiltFor(bs, initialPath) && AllOk(bs) && |bs| > 0 && boxes == ExpandFrom(bs)
    {
      treeModel := model;
      lister := entryLister;
      depth := bound;
      new;
      var bs := BoxesForPath(initialPath);
      assert initialPath[..0] == [];
      boxes := bs;
      if |bs| > 0 {
        ExpandLists();
      }
    }

    /**
     * `memorize_choice_in_list(index, persistent)`: the name selected in pane
     * `index` is stored for the path of the panes before it, in the history
     * `persistent` chooses.
     */
    method MemorizeChoiceInList(index: int, persistent: bool)
      requires Valid() && 0 <= index < |boxes|
      modifies treeModel
      ensures persistent ==> (treeModel.visitHistory == old(treeModel.visitHistory) &&
        treeModel.rootHistory == old(treeModel.rootHistory)[StringPath(Path(index - 1)) := Some(ItemText(Selected(index)))])
      ensures !persistent ==> (treeModel.rootHistory == old(treeModel.rootHistory) &&
        treeModel.visitHistory == old(treeModel.visitHistory)[StringPath(Path(index - 1)) := Some(ItemText(Selected(index)))])
    {
      var parentPath := if index == 0 then [] else Path(index - 1);
      treeModel.Memorize(parentPath, ItemText(Selected(index)), persistent);
    }

    /**
     * `activate_sibling(index)`: keeps panes 0..index, expands from there
     * with the histories as they were, and then records pane `index`'s
     * selection for this visit.
     */
    method ActivateSibling(index: int)
      requires Valid() && 0 <= index < |boxes|
      modifies this`boxes, treeModel
      ensures Valid()
      ensures boxes == old(ExpandFrom(boxes[..index + 1]))
      ensures treeModel.visitHistory ==
        old(treeModel.visitHistory)[StringPath(old(Path(index - 1))) := Some(ItemText(old(Selected(index))))]
      ensures treeModel.rootHistory == old(treeModel.rootHistory)
    {
      ghost var parent := Path(index - 1);
      ghost var chosen := Selected(index);
      boxes := boxes[..index + 1];
      assert boxes[..index] == old(boxes)[..index];
      ExpandLists();
      assert boxes[..index + 1] == old(boxes)[..index + 1];
      assert boxes[..index] == old(boxes)[..index];
      assert Path(index - 1) == parent && Selected(index) == chosen;
      MemorizeChoiceInList(index, false);
    }

    /**
     * `try_to_go_in(index)`: from the last pane, on a directory, records the
     * selection for this visit, then appends a pane for its listing and
     * expands; false (Python's `None`) when not the last pane, at a leaf,
     * or when the listing is empty, which still records the selection.
     */
    method TryToGoIn(index: int) returns (r: bool)
      requires Valid() && 0 <= index < |boxes|
      modifies this`boxes, treeModel
      ensures Valid()
      ensures r <==> index == |old(boxes)| - 1 && !old(IsAtLeaf(index)) && lister(old(Path(index))) != []
      ensures !r ==> boxes == old(boxes)
      ensures r ==> (|old(boxes)| < depth &&
        boxes == ExpandFrom(old(boxes) + [MakeBox(old(Path(index)), lister(old(Path(index))))]))
      ensures index == |old(boxes)| - 1 && !old(IsAtLeaf(index)) ==> (treeModel.visitHistory ==
        old(treeModel.visitHistory)[StringPath(old(Path(index - 1))) := Some(ItemText(old(Selected(index))))])
      ensures index != |old(boxes)| - 1 || old(IsAtLeaf(index)) ==>
        treeModel.visitHistory == old(treeModel.visitHistory)
      ensures treeModel.rootHistory == old(treeModel.rootHistory)
    {
      if index != |boxes| - 1 || IsAtLeaf(index) {
        return false;
      }
      MemorizeChoiceInList(index, false);
      var path := Path(index);
      var newBox := MakeBoxOrNone(path);
      if newBox.None? {
        return false;
      }
      assert |path| < depth;
      boxes := boxes + [newBox.value];
      ExpandLists();
      return true;
    }

    /**
     * `ListBoxes.__init__` as written calls `expand_lists` on whatever
     * `boxes_for_path` built. When the root lists nothing that is no pane at
     * all, and the first test of `expand_lists`, `is_at_leaf(len(boxes) - 1)`,
     * indexes the empty list at -1 and raises, so the `is_empty()` exit
     * after the constructor is never reached.
     */
    lemma {:induction false} EmptyRootRaises(initialPath: seq<string>, bs: seq<Pane>)
      requires lister([]) == [] && BuiltFor(bs, initialPath) && AllOk(bs)
      ensures bs == [] && IsAtLeafAsWritten(bs, |bs| - 1).None?
    {
      assert initialPath[..0] == [];
    }
  }
}
