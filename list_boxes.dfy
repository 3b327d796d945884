/**
 * The pane stack (fsel/lib/list_boxes.py): one pane per path segment, the
 * first listing the root and each further one listing the entry selected in
 * the pane before it. The stack is built from an initial path, expanded
 * along the oracle's recalled choices, truncated and re-expanded when a
 * selection changes, and filtered by an incremental search.
 */
module ListBoxes {
  import opened Wrappers
  import opened ListItemInfo
  import opened CustomListBox
  import opened PathOracle
  import PyStr

  /** The entry lister: the entries under a path, in display order. */
  type Lister = seq<string> -> seq<ListItem>

  /** The listed tree has depth below `depth`: nothing is listed at that depth or deeper. */
  ghost predicate Bounded(lister: Lister, depth: nat) {
    forall p: seq<string> {:trigger lister(p)} :: |p| >= depth ==> lister(p) == []
  }

  /** No entry is called like the oracle's counter key (a directory listing never holds '.'). */
  predicate NamesOk(items: seq<ListItem>) {
    forall k :: 0 <= k < |items| ==> items[k].name != COUNTER_KEY
  }

  ghost predicate ListedNamesOk(lister: Lister) {
    forall p: seq<string> {:trigger lister(p)} :: NamesOk(lister(p))
  }

  /** The cursor position for a remembered name: its first index, else 0. */
  function ChoiceIndex(items: seq<ListItem>, name: Option<string>): (c: nat)
    ensures |items| > 0 ==> c < |items|
  {
    if name.None? then 0 else IndexOfItemFileName(name.value, items).GetOr(0)
  }

  /** The cursor lands on the first entry of the remembered name, and on 0 when there is none. */
  lemma ChoiceIndexIsFirst(items: seq<ListItem>, name: Option<string>)
    ensures name.Some? && (exists j :: 0 <= j < |items| && items[j].name == name.value) ==>
      (var c := ChoiceIndex(items, name);
       c < |items| && items[c].name == name.value && forall j :: 0 <= j < c ==> items[j].name != name.value)
    ensures name.None? || (forall j :: 0 <= j < |items| ==> items[j].name != name.value) ==>
      ChoiceIndex(items, name) == 0
  {
  }

  /** `make_box`: the preferred name when given and non-empty, else the name the oracle recalls. */
  function NameToSelect(stats: Stats, path: seq<string>, preferred: Option<string>): Option<string> {
    if preferred.None? || preferred.value == "" then Recall(stats, path) else preferred
  }

  /** The segment of `path` after its first `k` ones, if any. */
  function PreferredAt(path: seq<string>, k: nat): Option<string> {
    if k < |path| then Some(path[k]) else None
  }

  /** A pane as `make_box` creates it for `path`, listing `items`, its cursor on `name`. */
  ghost predicate BoxFor(b: ListBox, path: seq<string>, items: seq<ListItem>, name: Option<string>)
    reads b
  {
    |items| > 0 && b.allItems == items && b.items == items && b.folder == path && b.height == |items| &&
    b.curLine == ChoiceIndex(items, name) && b.choice == b.curLine && b.topLine == 0 && !b.focus
  }

  ghost predicate AllValid(bs: seq<ListBox>)
    reads bs
  {
    forall k :: 0 <= k < |bs| ==> bs[k].Valid()
  }

  /** The names selected in panes `bs`, in order. */
  function Names(bs: seq<ListBox>): (r: seq<string>)
    reads bs
    requires AllValid(bs)
    ensures |r| == |bs|
  {
    if |bs| == 0 then [] else Names(bs[..|bs| - 1]) + [bs[|bs| - 1].Selected().name]
  }

  /** Name `k` is the one selected in pane `k`. */
  lemma {:induction false} NamesSelected(bs: seq<ListBox>, k: nat)
    requires AllValid(bs) && k < |bs|
    ensures Names(bs)[k] == bs[k].Selected().name
    decreases |bs|
  {
    if k < |bs| - 1 {
      NamesSelected(bs[..|bs| - 1], k);
    }
  }

  /** The names selected in a prefix of the panes are the prefix of their names. */
  lemma {:induction false} NamesPrefix(bs: seq<ListBox>, j: nat)
    requires AllValid(bs) && j <= |bs|
    ensures Names(bs[..j]) == Names(bs)[..j]
    decreases |bs|
  {
    if j < |bs| {
      NamesPrefix(bs[..|bs| - 1], j);
      assert bs[..|bs| - 1][..j] == bs[..j];
    } else {
      assert bs[..j] == bs;
    }
  }

  /** The entries selected in panes `bs`, in order. */
  function SelectedItems(bs: seq<ListBox>): (r: seq<ListItem>)
    reads bs
    requires AllValid(bs)
    ensures |r| == |bs|
    ensures forall k :: 0 <= k < |bs| ==> r[k] == bs[k].Selected()
  {
    if |bs| == 0 then [] else SelectedItems(bs[..|bs| - 1]) + [bs[|bs| - 1].Selected()]
  }

  /** No pane occurs twice. */
  ghost predicate Distinct(bs: seq<ListBox>) {
    forall i, j :: 0 <= i < j < |bs| ==> bs[i] != bs[j]
  }

  /** At most one pane has the focus flag. */
  ghost predicate FocusedAtMostOnce(bs: seq<ListBox>)
    reads bs`focus
  {
    forall i, j :: 0 <= i < |bs| && 0 <= j < |bs| && bs[i].focus && bs[j].focus ==> i == j
  }

  class ListBoxes {
    const lister: Lister
    ghost const depth: nat
    const oracle: PathOracle
    var boxes: seq<ListBox>
    var searchString: string
    var matchString: string

    /**
     * Every pane is valid and lists what the lister gives for its folder,
     * no pane occurs twice, and the oracle keeps its counters well formed.
     */
    ghost predicate Valid()
      reads this, boxes, oracle
    {
      Bounded(lister, depth) && ListedNamesOk(lister) &&
      oracle.Valid() && AllCounted(oracle.usageStats) &&
      |boxes| <= depth && AllValid(boxes) &&
      (forall i :: 0 <= i < |boxes| ==> boxes[i].allItems == lister(boxes[i].folder)) &&
      Distinct(boxes)
    }

    /** `selected_item_in_list(index)`. */
    function Selected(index: int): ListItem
      reads this, boxes
      requires 0 <= index < |boxes| && boxes[index].Valid()
    {
      boxes[index].Selected()
    }

    /** `is_at_leaf(index)`: the selected entry of pane `index` is not a directory. */
    predicate IsAtLeaf(index: int)
      reads this, boxes
      requires 0 <= index < |boxes| && boxes[index].Valid()
    {
      IsLeaf(Selected(index))
    }

    /** `path(index)`: the names selected in panes 0..index; `[]` for index -1. */
    function Path(index: int): (p: seq<string>)
      reads this, boxes
      requires -1 <= index < |boxes| && AllValid(boxes)
      ensures |p| == index + 1
    {
      Names(boxes[..index + 1])
    }

    /** `path(index)` has one name per pane 0..index: the name selected there. */
    lemma PathLists(index: int)
      requires -1 <= index < |boxes| && AllValid(boxes)
      ensures |Path(index)| == index + 1
      ensures forall k :: 0 <= k <= index ==> Path(index)[k] == Selected(k).name
    {
      forall k | 0 <= k <= index
        ensures Path(index)[k] == Selected(k).name
      {
        NamesSelected(boxes[..index + 1], k);
      }
    }

    /** `items_path(index)`: the entries selected in panes 0..index. */
    function ItemsPath(index: int): (r: seq<ListItem>)
      reads this, boxes
      requires -1 <= index < |boxes| && AllValid(boxes)
      ensures |r| == index + 1
      ensures forall k :: 0 <= k <= index ==> r[k] == Selected(k)
    {
      SelectedItems(boxes[..index + 1])
    }

    /**
     * `max_child_height()`: the longest shown list. The source defines it
     * twice, here and for the older stack in fsel/fsel.py; both are Python's
     * `max` over the list lengths, `PyStr.MaxOf`.
     */
    function MaxChildHeight(): (m: int)
      reads this, boxes
      requires |boxes| > 0
      ensures forall k :: 0 <= k < |boxes| ==> |boxes[k].items| <= m
      ensures exists k :: 0 <= k < |boxes| && |boxes[k].items| == m
    {
      var bs := boxes;
      var lengths := seq(|bs|, k requires 0 <= k < |bs| reads bs => |bs[k].items|);
      assert forall k :: 0 <= k < |bs| ==> lengths[k] == |bs[k].items|;
      PyStr.MaxOf(lengths)
    }

    /** A selected name is never the oracle's counter key, since no listing holds it. */
    lemma SelectedNameOk(index: int)
      requires Valid() && 0 <= index < |boxes|
      ensures Selected(index).name != COUNTER_KEY
    {
      assert Selected(index) in boxes[index].items;
      assert NamesOk(lister(boxes[index].folder));
    }

    lemma PathNamesOk(index: int)
      requires Valid() && -1 <= index < |boxes|
      ensures NoCounterKey(Path(index))
    {
      PathLists(index);
      forall k | 0 <= k <= index
        ensures Path(index)[k] != COUNTER_KEY
      {
        SelectedNameOk(k);
      }
    }

    /** Builds the stack for `initialPath` and takes the oracle and the lister as given. */
    constructor (entryLister: Lister, ghost bound: nat, theOracle: PathOracle, initialPath: seq<string>)
      requires Bounded(entryLister, bound) && ListedNamesOk(entryLister)
      requires theOracle.Valid() && AllCounted(theOracle.usageStats)
      ensures Valid()
      ensures lister == entryLister && oracle == theOracle && searchString == "" && matchString == ""
      ensures BuiltFor(boxes, initialPath)
      ensures forall k :: 0 <= k < |boxes| ==> fresh(boxes[k])
    {
      lister := entryLister;
      depth := bound;
      oracle := theOracle;
      searchString := "";
      matchString := "";
      new;
      boxes := BoxesForPath(initialPath);
    }

    /**
     * What `boxes_for_path` builds: one pane per prefix of `initialPath`,
     * stopping after the whole path or before the first empty listing; the
     * pane of the last segment (of the root for an empty path) has the focus
     * and its cursor where `make_box` put it, every pane before it has its
     * cursor on the next segment.
     */
    ghost predicate BuiltFor(bs: seq<ListBox>, initialPath: seq<string>)
      reads this, bs, oracle
    {
      |bs| <= |initialPath| + 1 && (|bs| == |initialPath| + 1 || lister(initialPath[..|bs|]) == []) &&
      forall k :: 0 <= k < |bs| ==> PaneBuilt(bs[k], initialPath, k)
    }

    /** Pane `k` of what `boxes_for_path` builds for `initialPath`. */
    ghost predicate PaneBuilt(b: ListBox, initialPath: seq<string>, k: int)
      reads this, b, oracle
    {
      0 <= k <= |initialPath| &&
      var prefix := initialPath[..k];
      b.Valid() && b.allItems == lister(prefix) && b.items == b.allItems && b.folder == prefix &&
      if k < |initialPath| - 1 then b.curLine == ChoiceIndex(b.items, Some(initialPath[k])) && !b.focus
      else
        b.curLine == ChoiceIndex(b.items, NameToSelect(oracle.usageStats, prefix, PreferredAt(initialPath, k))) &&
        (b.focus <==> k == |initialPath| - 1 || k == 0)
    }

    /**
     * The focus in what `boxes_for_path` builds: at most one pane has the
     * flag, and a non-empty stack has none exactly when the listings stop
     * before the path's last segment has a pane of its own.
     */
    lemma BuiltFocus(bs: seq<ListBox>, initialPath: seq<string>)
      requires BuiltFor(bs, initialPath) && |bs| > 0
      ensures FocusedAtMostOnce(bs)
      ensures (forall k :: 0 <= k < |bs| ==> !bs[k].focus) <==> |bs| < |initialPath|
    {
      forall i | 0 <= i < |bs| && bs[i].focus
        ensures i == if |initialPath| == 0 then 0 else |initialPath| - 1
      {
        assert PaneBuilt(bs[i], initialPath, i);
      }
      if |bs| >= |initialPath| {
        var j := if |initialPath| == 0 then 0 else |initialPath| - 1;
        assert PaneBuilt(bs[j], initialPath, j);
      }
    }

    /** Pane `k` as the first loop of `boxes_for_path` makes it. */
    ghost predicate PaneMade(b: ListBox, initialPath: seq<string>, k: int)
      reads this, b, oracle
    {
      0 <= k <= |initialPath| &&
      var prefix := initialPath[..k];
      b.Valid() && BoxFor(b, prefix, lister(prefix), NameToSelect(oracle.usageStats, prefix, PreferredAt(initialPath, k)))
    }

    /**
     * `boxes_for_path`: one pane per prefix of `initialPath` while the
     * listing is not empty, the cursor of each on the next segment, and focus
     * on the pane of the last segment.
     */
    method BoxesForPath(initialPath: seq<string>) returns (bs: seq<ListBox>)
      requires Bounded(lister, depth) && ListedNamesOk(lister) && AllCounted(oracle.usageStats)
      ensures BuiltFor(bs, initialPath) && AllValid(bs) && |bs| <= depth && Distinct(bs)
      ensures forall k :: 0 <= k < |bs| ==> fresh(bs[k])
    {
      bs := CreatePanes(initialPath);
      PlaceCursors(bs, initialPath);
    }

    /** The first loop of `boxes_for_path`: `make_box_or_none` for each prefix, preferring the next segment. */
    method CreatePanes(initialPath: seq<string>) returns (bs: seq<ListBox>)
      requires Bounded(lister, depth) && AllCounted(oracle.usageStats)
      ensures |bs| <= |initialPath| + 1 && |bs| <= depth && Distinct(bs)
      ensures |bs| == |initialPath| + 1 || lister(initialPath[..|bs|]) == []
      ensures forall k :: 0 <= k < |bs| ==> fresh(bs[k]) && PaneMade(bs[k], initialPath, k)
    {
      bs := [];
      var index := 0;
      while true
        invariant index == |bs| <= |initialPath| && |bs| <= depth && Distinct(bs)
        invariant forall k :: 0 <= k < |bs| ==> fresh(bs[k]) && PaneMade(bs[k], initialPath, k)
        decreases |initialPath| + 1 - index
      {
        var preferred := if index < |initialPath| then Some(initialPath[index]) else None;
        var aBox := MakeBoxOrNone(initialPath[..index], preferred);
        if aBox.None? {
          break;
        }
        assert |initialPath[..index]| < depth;
        assert PaneMade(aBox.value, initialPath, index);
        bs := bs + [aBox.value];
        index := index + 1;
        if index > |initialPath| {
          break;
        }
      }
    }

    /**
     * The second loop of `boxes_for_path`: puts the cursor of each pane
     * before the last segment's on the next segment, and focuses the last
     * segment's pane (the root's for an empty path).
     */
    method PlaceCursors(bs: seq<ListBox>, initialPath: seq<string>)
      requires |bs| <= |initialPath| + 1 && (|bs| == |initialPath| + 1 || lister(initialPath[..|bs|]) == [])
      requires Distinct(bs)
      requires forall k :: 0 <= k < |bs| ==> PaneMade(bs[k], initialPath, k)
      modifies bs
      ensures forall k :: 0 <= k < |bs| ==> PaneBuilt(bs[k], initialPath, k)
    {
      var i := 0;
      while i < |bs|
        invariant 0 <= i <= |bs| && (i == 0 || i < |initialPath|)
        invariant forall k :: 0 <= k < i ==> PaneBuilt(bs[k], initialPath, k)
        invariant forall k :: i <= k < |bs| ==> PaneMade(bs[k], initialPath, k)
      {
        assert forall j :: 0 <= j < |bs| && j != i ==> bs[j] != bs[i];
        var focused := PlacePane(bs[i], initialPath, i);
        if focused {
          forall k | i < k < |bs|
            ensures PaneBuilt(bs[k], initialPath, k)
          {
            PaneAfterPathBuilt(bs[k], initialPath, k);
          }
          return;
        }
        i := i + 1;
      }
    }

    /** The pane past the last segment is left as the first loop of `boxes_for_path` made it. */
    lemma PaneAfterPathBuilt(b: ListBox, initialPath: seq<string>, k: int)
      requires PaneMade(b, initialPath, k) && k == |initialPath| > 0
      ensures PaneBuilt(b, initialPath, k)
    {
    }

    /** One round of the second loop of `boxes_for_path`: focus on the last segment's pane, else the cursor on the next segment. */
    method PlacePane(box: ListBox, initialPath: seq<string>, i: nat) returns (focused: bool)
      requires i <= |initialPath| && (i == 0 || i < |initialPath|) && PaneMade(box, initialPath, i)
      modifies box
      ensures PaneBuilt(box, initialPath, i)
      ensures focused <==> i == |initialPath| - 1 || |initialPath| == 0
    {
      if i == |initialPath| - 1 || |initialPath| == 0 {
        box.focus := true;
        return true;
      }
      var c := ChoiceIndex(box.items, Some(initialPath[i]));
      box.curLine := c;
      box.choice := c;
      return false;
    }

    /**
     * `make_box`: a fresh pane listing `items`, its cursor on the preferred
     * name, or when there is none on the name the oracle recalls for `path`.
     */
    method MakeBox(path: seq<string>, items: seq<ListItem>, preferred: Option<string>) returns (box: ListBox)
      requires |items| > 0 && AllCounted(oracle.usageStats)
      ensures fresh(box) && BoxFor(box, path, items, NameToSelect(oracle.usageStats, path, preferred))
      ensures box.width == MaxItemTextLength(items)
      ensures box.Valid()
    {
      box := new ListBox(MaxItemTextLength(items), |items|, items, path);
      var lastName := preferred;
      if preferred.None? || preferred.value == "" {
        if GetEntry(oracle.usageStats, path).Some? {
          AllCountedEntry(oracle.usageStats, path);
        }
        lastName := oracle.RecallChosenName(path);
      }
      var choice := ChoiceIndex(items, lastName);
      box.curLine := choice;
      box.choice := choice;
    }

    /** `make_box_or_none`: no pane when the listing under `path` is empty. */
    method MakeBoxOrNone(path: seq<string>, preferred: Option<string>) returns (box: Option<ListBox>)
      requires AllCounted(oracle.usageStats)
      ensures box.None? <==> lister(path) == []
      ensures box.Some? ==> (fresh(box.value) && box.value.Valid() &&
        BoxFor(box.value, path, lister(path), NameToSelect(oracle.usageStats, path, preferred)))
    {
      var items := lister(path);
      if |items| == 0 {
        return None;
      }
      var b := MakeBox(path, items, preferred);
      return Some(b);
    }

    /** `path(len(boxes) - 1)`: the names selected in all panes. */
    function Trail(): (p: seq<string>)
      reads this, boxes
      requires AllValid(boxes)
      ensures |p| == |boxes|
    {
      Names(boxes)
    }

    /** Every `path(index)` is a prefix of the whole trail. */
    lemma PathIsTrailPrefix(index: int)
      requires AllValid(boxes) && -1 <= index < |boxes|
      ensures Path(index) == Trail()[..index + 1]
    {
      NamesPrefix(boxes, index + 1);
    }

    /** A pane as expansion appends it under `parent`: its listing, its cursor on the recalled name. */
    ghost predicate Appended(b: ListBox, parent: seq<string>)
      reads b, oracle`usageStats
    {
      BoxFor(b, parent, lister(parent), Recall(oracle.usageStats, parent))
    }

    /**
     * What `expand_lists` appended to panes `bs[..from]`: every further pane
     * lists the path of the selections before it (`first` for the first one)
     * with its cursor on the name the oracle recalls there; it was appended
     * because the selection before it is a directory, and after an appended
     * pane the expansion went on only when that pane has a single entry or
     * the oracle recalls a name under its path.
     */
    ghost predicate AppendedFrom(bs: seq<ListBox>, from: nat, first: seq<string>)
      reads bs, oracle`usageStats
      requires AllValid(bs) && 0 < from <= |bs|
      decreases |bs|
    {
      |bs| == from ||
      var k := |bs| - 1;
      AppendedFrom(bs[..k], from, first) && Link(bs[k - 1], bs[k], k == from, first)
    }

    /**
     * Pane `b` appended after pane `prev`: it was appended because `prev`'s
     * selection is a directory, and lists `first` when it is the first
     * appended pane, else the path of `prev`'s selection, where expansion
     * went on because `prev` has a single entry or a recalled name.
     */
    ghost predicate Link(prev: ListBox, b: ListBox, isFirst: bool, first: seq<string>)
      reads prev, b, oracle`usageStats
      requires prev.Valid()
    {
      Appended(b, b.folder) && !IsLeaf(prev.Selected()) &&
      (isFirst ==> b.folder == first) &&
      (!isFirst ==> (b.folder == prev.folder + [prev.Selected().name] &&
         (|prev.items| == 1 || Recall(oracle.usageStats, prev.folder).Some?)))
    }

    /** The panes appended after pane `from - 1` list the paths of the selections before them. */
    lemma {:induction false} AppendedFolders(bs: seq<ListBox>, from: nat, k: nat)
      requires AllValid(bs) && 0 < from <= k < |bs|
      requires AppendedFrom(bs, from, Names(bs[..from]))
      ensures bs[k].folder == Names(bs[..k])
      decreases |bs|
    {
      var n := |bs| - 1;
      assert bs[..n][..from] == bs[..from];
      if k < n {
        AppendedFolders(bs[..n], from, k);
        assert bs[..n][..k] == bs[..k];
      } else if k > from {
        AppendedFolders(bs[..n], from, k - 1);
        assert bs[..n][..k - 1] == bs[..k - 1] && bs[..k][..k - 1] == bs[..k - 1];
      }
    }

    /** The panes appended by expansion are made without the focus. */
    lemma {:induction false} AppendedUnfocused(bs: seq<ListBox>, from: nat, first: seq<string>, k: nat)
      requires AllValid(bs) && 0 < from <= k < |bs|
      requires AppendedFrom(bs, from, first)
      ensures !bs[k].focus
      decreases |bs|
    {
      var n := |bs| - 1;
      if k < n {
        assert bs[..n][k] == bs[k];
        AppendedUnfocused(bs[..n], from, first, k);
      }
    }

    /**
     * `expand_lists`: appends panes along the selected entries. It stops at a
     * leaf, at an empty listing, or after adding a pane of two or more
     * entries for whose parent the oracle recalls nothing; it goes on through
     * single-entry panes.
     */
    method ExpandLists()
      requires Valid() && |boxes| > 0
      modifies this`boxes
      ensures Valid()
      ensures |boxes| >= |old(boxes)| && boxes[..|old(boxes)|] == old(boxes)
      ensures AppendedFrom(boxes, |old(boxes)|, old(Trail()))
      ensures Settled(|old(boxes)|)
      ensures forall k :: |old(boxes)| <= k < |boxes| ==> fresh(boxes[k])
    {
      ghost var first := Trail();
      ghost var n := |boxes|;
      var stop := false;
      while !stop
        invariant Expanding(n, first, stop) && |boxes| >= n && boxes[..n] == old(boxes)
        invariant forall k :: n <= k < |boxes| ==> fresh(boxes[k])
        decreases depth - |boxes|, !stop
      {
        ghost var before := boxes;
        ghost var grown;
        stop, grown := ExpandOnce(n, first);
        assert boxes[..n] == before[..n];
        forall k | n <= k < |boxes|
          ensures fresh(boxes[k])
        {
          if k >= |before| {
            assert boxes[k] == grown[k - |before|];
          } else {
            assert boxes[k] == before[k];
          }
        }
      }
      assert n == |old(boxes)| && first == old(Trail());
    }

    /** The state of the loop of `expand_lists` that started with panes `..from` and trail `first`. */
    ghost predicate Expanding(from: nat, first: seq<string>, stop: bool)
      reads this, boxes, oracle
    {
      Valid() && 0 < from <= |boxes| && Chained(from, first) && (!stop ==> GoesOn(from)) && (stop ==> Settled(from))
    }

    /**
     * Where `expand_lists` stops, for panes appended after pane `from - 1`:
     * the last selection is a leaf, or its listing is empty, or the last
     * pane was appended, has two or more entries and the oracle recalls
     * nothing for its parent.
     */
    ghost predicate Settled(from: nat)
      reads this, boxes, oracle`usageStats
      requires AllValid(boxes) && |boxes| > 0
    {
      var last := boxes[|boxes| - 1];
      IsLeaf(last.Selected()) || lister(Trail()) == [] ||
      (|boxes| > from && |last.items| != 1 && Recall(oracle.usageStats, last.folder).None?)
    }

    /**
     * The state between two rounds of `expand_lists` that started with
     * panes `..from` and trail `first`: the appended panes are as
     * `AppendedFrom` says, and the trail ends with the last one's selection.
     */
    ghost predicate Chained(from: nat, first: seq<string>)
      reads this, boxes, oracle`usageStats
      requires AllValid(boxes) && 0 < from <= |boxes|
    {
      var last := boxes[|boxes| - 1];
      AppendedFrom(boxes, from, first) &&
      (|boxes| == from ==> Trail() == first) &&
      (|boxes| > from ==> Trail() == last.folder + [last.Selected().name])
    }

    /** After an appended pane, `expand_lists` goes on only through a single entry or a recalled name. */
    ghost predicate GoesOn(from: nat)
      reads this, boxes, oracle`usageStats
      requires |boxes| > 0
    {
      var last := boxes[|boxes| - 1];
      |boxes| > from ==> |last.items| == 1 || Recall(oracle.usageStats, last.folder).Some?
    }

    /**
     * One round of the loop of `expand_lists`, from the last pane: nothing
     * at a leaf or over an empty listing; otherwise a pane for the listing
     * is appended, and the loop stops after it when it has two or more
     * entries and the oracle recalls nothing for its parent.
     */
    method ExpandOnce(ghost from: nat, ghost first: seq<string>) returns (stop: bool, ghost grown: seq<ListBox>)
      requires Expanding(from, first, false)
      modifies this`boxes
      ensures Expanding(from, first, stop)
      ensures !stop ==> |grown| == 1
      ensures boxes == old(boxes) + grown && |grown| <= 1 && forall k :: 0 <= k < |grown| ==> fresh(grown[k])
    {
      var index := |boxes| - 1;
      if IsAtLeaf(index) {
        return true, [];
      }
      var name, aList := NextPane(index);
      if aList.None? {
        return true, [];
      }
      stop := Grow(aList.value, name, from, first);
      grown := [aList.value];
    }

    /** The appending step of `expand_lists`: the new pane extends the chain; stop after it unless it goes on. */
    method Grow(b: ListBox, name: Option<string>, ghost from: nat, ghost first: seq<string>) returns (stop: bool)
      requires Valid() && 0 < from <= |boxes| && Chained(from, first) && GoesOn(from)
      requires !IsLeaf(boxes[|boxes| - 1].Selected())
      requires b !in boxes && b.Valid() && b.allItems == lister(b.folder) && b.folder == Trail()
      requires Appended(b, b.folder) && name == Recall(oracle.usageStats, b.folder)
      modifies this`boxes
      ensures Valid() && boxes == old(boxes) + [b]
      ensures Chained(from, first) && (stop ==> Settled(from)) && (!stop ==> GoesOn(from))
    {
      ghost var before := boxes;
      ghost var prev := boxes[|boxes| - 1];
      AppendBox(b);
      stop := |b.items| != 1 && name.None?;
      assert boxes[..|boxes| - 1] == before && boxes[|boxes| - 2] == prev;
      assert AppendedFrom(before, from, first);
      assert Link(prev, b, |before| == from, first);
    }

    /**
     * The listing step of `expand_lists`: the name the oracle recalls under
     * `path(index)` for the last pane `index`, and the pane for that path, if any.
     */
    method NextPane(index: int) returns (name: Option<string>, aList: Option<ListBox>)
      requires Valid() && index == |boxes| - 1
      ensures name == Recall(oracle.usageStats, Trail())
      ensures aList.None? <==> lister(Trail()) == []
      ensures aList.Some? ==> (fresh(aList.value) && aList.value.Valid() && Appended(aList.value, Trail()) &&
        aList.value.allItems == lister(aList.value.folder) && aList.value.folder == Trail())
    {
      var path := Path(index);
      PathIsTrailPrefix(index);
      assert path == Trail();
      if GetEntry(oracle.usageStats, path).Some? {
        AllCountedEntry(oracle.usageStats, path);
      }
      name := oracle.RecallChosenName(path);
      aList := MakeBoxOrNone(path, None);
    }

    /** Appends a fresh pane listing the children of the last selection; the trail grows by its selection. */
    method AppendBox(b: ListBox)
      requires Valid() && |boxes| > 0 && b !in boxes && b.Valid()
      requires b.allItems == lister(b.folder) && b.folder == Trail()
      modifies this`boxes
      ensures Valid() && boxes == old(boxes) + [b]
      ensures Trail() == old(Trail()) + [b.Selected().name]
    {
      assert b.Selected() in b.items;
      assert |b.folder| == |boxes| && lister(b.folder) != [];
      boxes := boxes + [b];
      assert boxes[..|boxes| - 1] == old(boxes);
    }

    /**
     * `activate_sibling`: keeps panes 0..index, expands again from there and
     * records pane `index`'s selection for this session only.
     */
    method ActivateSibling(index: int)
      requires Valid() && 0 <= index < |boxes|
      modifies this`boxes, oracle
      ensures Valid()
      ensures |boxes| > index && boxes[..index + 1] == old(boxes[..index + 1])
      ensures forall k :: index < k < |boxes| ==> fresh(boxes[k])
      ensures AppendedFrom(boxes, index + 1, old(Trail()[..index + 1])) && Settled(index + 1)
      ensures oracle.visitHistory == old(oracle.visitHistory)[StringPath(old(Path(index - 1))) := old(Selected(index)).name]
      ensures oracle.rootHistory == old(oracle.rootHistory) && oracle.usageStats == old(oracle.usageStats)
    {
      Reexpand(index);
      ghost var parent := Path(index - 1);
      ghost var name := Selected(index).name;
      ghost var stats := oracle.usageStats;
      MemorizeChoiceInList(index, false);
      assert Path(index - 1) == parent && Selected(index).name == name && oracle.usageStats == stats;
    }

    /** The pane part of `activate_sibling`: keeps panes 0..index and expands from there. */
    method Reexpand(index: int)
      requires Valid() && 0 <= index < |boxes|
      modifies this`boxes
      ensures Valid()
      ensures |boxes| > index && boxes[..index + 1] == old(boxes[..index + 1])
      ensures forall k :: index < k < |boxes| ==> fresh(boxes[k])
      ensures AppendedFrom(boxes, index + 1, old(Trail()[..index + 1])) && Settled(index + 1)
      ensures Path(index - 1) == old(Path(index - 1)) && Selected(index) == old(Selected(index))
    {
      Truncate(index);
      ghost var kept := boxes;
      ExpandLists();
      assert boxes[..index + 1] == kept;
      assert boxes[..index] == kept[..index];
    }

    /** Keeps panes 0..index. */
    method Truncate(index: int)
      requires Valid() && 0 <= index < |boxes|
      modifies this`boxes
      ensures Valid() && boxes == old(boxes[..index + 1])
      ensures Trail() == old(Trail()[..index + 1])
      ensures Path(index - 1) == old(Path(index - 1)) && Selected(index) == old(Selected(index))
    {
      NamesPrefix(boxes, index + 1);
      boxes := boxes[..index + 1];
      assert boxes[..index] == old(boxes)[..index];
    }

    /**
     * `try_to_go_in`: from the last pane, on a directory, records the
     * selection for this session and opens a pane for its listing; false
     * (Python's None) when not possible.
     */
    method TryToGoIn(index: int) returns (r: bool)
      requires Valid() && 0 <= index < |boxes|
      modifies this, oracle
      ensures Valid()
      ensures r <==> index == |old(boxes)| - 1 && !old(IsAtLeaf(index)) && lister(old(Trail())) != []
      ensures !r ==> boxes == old(boxes)
      ensures forall k :: |old(boxes)| <= k < |boxes| ==> fresh(boxes[k])
      ensures index != |old(boxes)| - 1 || old(IsAtLeaf(index)) ==>
        oracle.visitHistory == old(oracle.visitHistory)
      ensures index == |old(boxes)| - 1 && !old(IsAtLeaf(index)) ==>
        oracle.visitHistory == old(oracle.visitHistory)[StringPath(old(Path(index - 1))) := old(Selected(index)).name]
      ensures oracle.rootHistory == old(oracle.rootHistory) && oracle.usageStats == old(oracle.usageStats)
      ensures r ==> |boxes| > |old(boxes)| && boxes[..|old(boxes)|] == old(boxes)
      ensures r ==> (Appended(boxes[index + 1], old(Trail())) &&
        AppendedFrom(boxes, index + 2, old(Trail()) + [boxes[index + 1].Selected().name]) && Settled(index + 2))
    {
      var isAtLeaf := IsAtLeaf(index);
      var notLast := index != |boxes| - 1;
      if notLast || isAtLeaf {
        return false;
      }
      ghost var trail := Trail();
      MemorizeChoiceInList(index, false);
      assert Trail() == trail;
      r := Descend(index);
    }

    /** The pane part of `try_to_go_in` from the last pane: a pane for its selection's listing, then expansion. */
    method Descend(index: int) returns (r: bool)
      requires Valid() && 0 <= index == |boxes| - 1 && !IsAtLeaf(index)
      modifies this`boxes
      ensures Valid()
      ensures r <==> lister(old(Trail())) != []
      ensures !r ==> boxes == old(boxes)
      ensures forall k :: |old(boxes)| <= k < |boxes| ==> fresh(boxes[k])
      ensures r ==> |boxes| > |old(boxes)| && boxes[..|old(boxes)|] == old(boxes)
      ensures r ==> (Appended(boxes[index + 1], old(Trail())) &&
        AppendedFrom(boxes, index + 2, old(Trail()) + [boxes[index + 1].Selected().name]) && Settled(index + 2))
    {
      ghost var trail := Trail();
      var path := Path(index);
      PathIsTrailPrefix(index);
      assert path == trail;
      var newBox := MakeBoxOrNone(path, None);
      if newBox.None? {
        return false;
      }
      assert Trail() == trail;
      assert Appended(newBox.value, trail);
      Enter(newBox.value);
      return true;
    }

    /** The second half of `try_to_go_in`: appends pane `b` after the last one and expands from it. */
    method Enter(b: ListBox)
      requires Valid() && |boxes| > 0 && b !in boxes && b.Valid()
      requires b.allItems == lister(b.folder) && b.folder == Trail()
      modifies this`boxes
      ensures Valid()
      ensures |boxes| > |old(boxes)| && boxes[..|old(boxes)|] == old(boxes) && boxes[|old(boxes)|] == b
      ensures forall k :: |old(boxes)| < k < |boxes| ==> fresh(boxes[k])
      ensures AppendedFrom(boxes, |old(boxes)| + 1, old(Trail()) + [b.Selected().name]) && Settled(|old(boxes)| + 1)
    {
      ghost var grown := boxes + [b];
      AppendBox(b);
      ExpandLists();
      assert boxes[..|grown|] == grown;
      assert boxes[..|grown| - 1] == old(boxes);
    }

    /**
     * `memorize_choice_in_list`: tells the oracle that pane `index`'s
     * selected name was chosen under the path of the panes before it.
     */
    method MemorizeChoiceInList(index: int, persistent: bool)
      requires Valid() && 0 <= index < |boxes|
      requires persistent ==> GetEntry(oracle.usageStats, Path(index - 1)).Some?
      modifies oracle
      ensures Valid()
      ensures persistent ==> (oracle.rootHistory == old(oracle.rootHistory)[StringPath(Path(index - 1)) := Selected(index).name]
        && oracle.visitHistory == old(oracle.visitHistory)
        && oracle.usageStats == Incr(old(oracle.usageStats), Path(index))
        && GetEntry(oracle.usageStats, Path(index)).Some?)
      ensures !persistent ==> (oracle.visitHistory == old(oracle.visitHistory)[StringPath(Path(index - 1)) := Selected(index).name]
        && oracle.rootHistory == old(oracle.rootHistory) && oracle.usageStats == old(oracle.usageStats))
    {
      var parentPath := if index == 0 then [] else Path(index - 1);
      var name := Selected(index).name;
      ChoiceIsRecordable(index);
      ghost var path := Path(index);
      if persistent {
        IncrAllCounted(oracle.usageStats, parentPath, name);
        IncrCreates(oracle.usageStats, path);
      }
      oracle.Memorize(parentPath, name, persistent);
      assert Path(index) == path && (index > 0 ==> Path(index - 1) == parentPath) && Selected(index).name == name;
    }

    /**
     * `memorize_choice_in_list(i, True)` in terms of the trail of selected
     * names: pane `i`'s name is stored under the path before it and counted
     * once more under its own path.
     */
    method MemorizeOnTrail(i: nat, ghost trail: seq<string>)
      requires Valid() && i < |boxes| && Trail() == trail
      requires GetEntry(oracle.usageStats, trail[..i]).Some?
      modifies oracle
      ensures Valid() && Trail() == trail
      ensures oracle.rootHistory == old(oracle.rootHistory)[StringPath(trail[..i]) := trail[i]]
      ensures oracle.usageStats == Incr(old(oracle.usageStats), trail[..i + 1])
      ensures GetEntry(oracle.usageStats, trail[..i + 1]).Some?
      ensures oracle.visitHistory == old(oracle.visitHistory)
    {
      PathIsTrailPrefix(i - 1);
      PathIsTrailPrefix(i);
      ChoiceIsRecordable(i);
      assert Selected(i).name == trail[i];
      MemorizeChoiceInList(i, true);
    }

    /** The path and the name `memorize_choice_in_list` hands to the oracle. */
    lemma ChoiceIsRecordable(index: int)
      requires Valid() && 0 <= index < |boxes|
      ensures NoCounterKey(Path(index - 1)) && Selected(index).name != COUNTER_KEY
      ensures Path(index) == Path(index - 1) + [Selected(index).name]
    {
      PathNamesOk(index - 1);
      SelectedNameOk(index);
      assert boxes[..index + 1][..index] == boxes[..index];
    }

    /**
     * `search(s)`: records `s` as the search string; when some pane has a
     * name containing it, records it as the match string and narrows every
     * pane to its matches plus its selected entry, which stays selected.
     */
    method Search(s: string)
      requires Valid()
      modifies this, boxes
      ensures Valid() && boxes == old(boxes) && searchString == s
      ensures !AnyPaneMatches(s) ==> (matchString == old(matchString) &&
        forall i :: 0 <= i < |boxes| ==> boxes[i].items == old(boxes[i].items) && boxes[i].curLine == old(boxes[i].curLine))
      ensures AnyPaneMatches(s) ==> (matchString == s &&
        forall i :: 0 <= i < |boxes| ==>
          boxes[i].items == Kept(boxes[i].allItems, old(boxes[i].Selected()), s) &&
          boxes[i].Selected() == old(boxes[i].Selected()))
      ensures forall i :: 0 <= i < |boxes| ==> (boxes[i].topLine == old(boxes[i].topLine) &&
        boxes[i].height == old(boxes[i].height) && boxes[i].choice == old(boxes[i].choice) &&
        boxes[i].focus == old(boxes[i].focus))
    {
      searchString := s;
      var foundSomewhere := FoundSomewhere(s);
      if foundSomewhere {
        matchString := s;
        NarrowAll(s);
      }
    }

    /** The second pass of `search`: every pane narrowed to `s`. */
    method NarrowAll(s: string)
      requires Valid()
      modifies boxes
      ensures Valid()
      ensures forall i :: 0 <= i < |boxes| ==>
        boxes[i].items == Kept(boxes[i].allItems, old(boxes[i].Selected()), s) &&
        boxes[i].Selected() == old(boxes[i].Selected())
      ensures forall i :: 0 <= i < |boxes| ==> (boxes[i].topLine == old(boxes[i].topLine) &&
        boxes[i].height == old(boxes[i].height) && boxes[i].choice == old(boxes[i].choice) &&
        boxes[i].focus == old(boxes[i].focus))
    {
      var i := 0;
      while i < |boxes|
        invariant 0 <= i <= |boxes|
        invariant Valid()
        invariant forall j :: 0 <= j < i ==>
          boxes[j].items == Kept(boxes[j].allItems, old(boxes[j].Selected()), s) &&
          boxes[j].Selected() == old(boxes[j].Selected())
        invariant forall j :: i <= j < |boxes| ==>
          boxes[j].items == old(boxes[j].items) && boxes[j].curLine == old(boxes[j].curLine)
        invariant forall j :: 0 <= j < |boxes| ==> (boxes[j].topLine == old(boxes[j].topLine) &&
          boxes[j].height == old(boxes[j].height) && boxes[j].choice == old(boxes[j].choice) &&
          boxes[j].focus == old(boxes[j].focus))
      {
        assert forall j :: 0 <= j < |boxes| && j != i ==> boxes[j] != boxes[i];
        boxes[i].Narrow(s);
        i := i + 1;
      }
    }

    /** The first pass of `search`: whether any pane lists a name containing `s`. */
    method FoundSomewhere(s: string) returns (foundSomewhere: bool)
      requires Valid()
      ensures foundSomewhere == AnyPaneMatches(s)
    {
      foundSomewhere := false;
      var i := 0;
      while i < |boxes|
        invariant 0 <= i <= |boxes|
        invariant foundSomewhere <==> exists j :: 0 <= j < i && AnyMatch(boxes[j].allItems, s)
      {
        var found, _, _ := boxes[i].Search(s);
        foundSomewhere := foundSomewhere || found;
        i := i + 1;
      }
    }

    /**
     * Validity depends on the panes' entries and on each cursor being on one
     * of them, not on where the cursor is, nor on height, scroll or focus flag.
     */
    twostate lemma DisplayKeepsValid()
      requires old(Valid())
      requires boxes == old(boxes) && unchanged(oracle)
      requires forall b :: b in boxes ==> b.items == old(b.items) && 0 <= b.curLine < |b.items|
      ensures Valid()
    {
    }

    /** Some pane lists a name that contains `s`. */
    predicate AnyPaneMatches(s: string)
      reads this, boxes
    {
      exists j :: 0 <= j < |boxes| && AnyMatch(boxes[j].allItems, s)
    }
  }
}
