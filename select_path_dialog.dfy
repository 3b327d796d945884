/**
 * The path picker dialog (fsel/lib/select_path_dialog.py): the panes of the
 * pane stack laid out side by side in a dialog that scrolls horizontally to
 * keep the focused pane on screen, and the keys that move the focus, commit
 * the choice, or search the panes for the match string.
 */
module SelectPathDialog {
  import opened Wrappers
  import opened PyStr
  import opened ListItemInfo
  import opened CustomListBox
  import opened PathOracle
  import opened Keys
  import opened ExitCodesMapping
  import ListBoxes
  import DynamicDialog
  import PaintContext

  /* ---------------------------------------------------------------------
   * Matches of the match string
   * ------------------------------------------------------------------- */

  /** Entry `i` is shown and its file name contains `m`. */
  predicate Hit(items: seq<ListItem>, m: string, i: int) {
    0 <= i < |items| && Contains(ItemFileName(items[i]), m)
  }

  /** The hits among the first `n` entries, in ascending order. */
  function HitsBelow(items: seq<ListItem>, m: string, n: nat): seq<nat>
    requires n <= |items|
  {
    if n == 0 then [] else HitsBelow(items, m, n - 1) + (if Hit(items, m, n - 1) then [n - 1] else [])
  }

  /** `HitsBelow` holds every hit below `n` and nothing else, ascending. */
  lemma {:induction false} HitsBelowAreHits(items: seq<ListItem>, m: string, n: nat)
    requires n <= |items|
    ensures var r := HitsBelow(items, m, n);
      (forall k :: 0 <= k < |r| ==> r[k] < n && Hit(items, m, r[k])) &&
      (forall i :: 0 <= i < n && Hit(items, m, i) ==> i in r) &&
      (forall k, l :: 0 <= k < l < |r| ==> r[k] < r[l])
  {
    if n > 0 {
      HitsBelowAreHits(items, m, n - 1);
    }
  }

  /**
   * The match indices `search_widget_get_matches` collects for a pane: none
   * while the match string is empty, else every hit, ascending.
   */
  function MatchIndices(items: seq<ListItem>, m: string): (r: seq<nat>)
    ensures m == "" ==> r == []
  {
    if m == "" then [] else HitsBelow(items, m, |items|)
  }

  /** The match indices are exactly the hits of a non-empty match string, in ascending order. */
  lemma MatchIndicesAreHits(items: seq<ListItem>, m: string)
    ensures m != "" ==> forall i :: i in MatchIndices(items, m) <==> Hit(items, m, i)
    ensures var r := MatchIndices(items, m); forall k, l :: 0 <= k < l < |r| ==> r[k] < r[l]
    ensures PaneHasHit(items, m) <==> MatchIndices(items, m) != []
  {
    HitsBelowAreHits(items, m, |items|);
    var r := MatchIndices(items, m);
    if m != "" && PaneHasHit(items, m) {
      var i :| 0 <= i < |items| && Hit(items, m, i);
      assert i in r;
    }
    if r != [] {
      assert Hit(items, m, r[0]);
    }
  }

  /** The last element, or 0 for the empty sequence: `last_match_line`. */
  function LastOr0(s: seq<nat>): nat {
    if |s| == 0 then 0 else s[|s| - 1]
  }

  /** The entries each pane shows. */
  function Shown(bs: seq<ListBox>): (r: seq<seq<ListItem>>)
    reads bs
    ensures |r| == |bs| && forall k :: 0 <= k < |bs| ==> r[k] == bs[k].items
  {
    seq(|bs|, i requires 0 <= i < |bs| reads bs => bs[i].items)
  }

  /** `Shown` is determined by the entries of each pane. */
  lemma ShownIs(bs: seq<ListBox>, ls: seq<seq<ListItem>>)
    requires |ls| == |bs| && forall k :: 0 <= k < |bs| ==> bs[k].items == ls[k]
    ensures Shown(bs) == ls
  {
  }

  /** The number of matches in the first `n` panes: `count` of `matches_in_boxes`. */
  function TotalMatches(ls: seq<seq<ListItem>>, m: string, n: nat): nat
    requires n <= |ls|
  {
    if n == 0 then 0
    else TotalMatches(ls, m, n - 1) + |MatchIndices(ls[n - 1], m)|
  }

  /** There are no matches exactly when no pane has one. */
  lemma {:induction false} NoMatches(ls: seq<seq<ListItem>>, m: string, n: nat)
    requires n <= |ls|
    ensures TotalMatches(ls, m, n) == 0 <==> forall k :: 0 <= k < n ==> MatchIndices(ls[k], m) == []
  {
    if n > 0 {
      NoMatches(ls, m, n - 1);
      var here := MatchIndices(ls[n - 1], m);
      assert TotalMatches(ls, m, n) == TotalMatches(ls, m, n - 1) + |here|;
      if TotalMatches(ls, m, n) == 0 {
        assert here == [] && TotalMatches(ls, m, n - 1) == 0;
        forall k | 0 <= k < n
          ensures MatchIndices(ls[k], m) == []
        {
          if k == n - 1 {
            assert ls[k] == ls[n - 1];
          }
        }
      }
    }
  }

  /** The last of the first `n` lists that is not empty, if any. */
  function LastNonEmpty(ms: seq<seq<nat>>, n: nat): (r: Option<nat>)
    requires n <= |ms|
    ensures r.Some? ==> r.value < n && ms[r.value] != [] && forall k :: r.value < k < n ==> ms[k] == []
    ensures r.None? ==> forall k :: 0 <= k < n ==> ms[k] == []
  {
    if n == 0 then None
    else if ms[n - 1] != [] then Some(n - 1)
    else LastNonEmpty(ms, n - 1)
  }

  /** The match indices of every pane, pane by pane. */
  function PaneMatches(ls: seq<seq<ListItem>>, m: string): (r: seq<seq<nat>>)
    ensures |r| == |ls| && forall k :: 0 <= k < |ls| ==> r[k] == MatchIndices(ls[k], m)
  {
    seq(|ls|, k requires 0 <= k < |ls| => MatchIndices(ls[k], m))
  }

  /** The last of the first `n` panes that has a match, if any. */
  function LastPaneWithMatch(ls: seq<seq<ListItem>>, m: string, n: nat): (r: Option<nat>)
    requires n <= |ls|
    ensures r.Some? ==> (r.value < n && MatchIndices(ls[r.value], m) != [] &&
      forall k {:trigger MatchIndices(ls[k], m)} :: r.value < k < n ==> MatchIndices(ls[k], m) == [])
    ensures r.None? ==> forall k {:trigger MatchIndices(ls[k], m)} :: 0 <= k < n ==> MatchIndices(ls[k], m) == []
  {
    var ms := PaneMatches(ls, m);
    LastNonEmpty(ms, n)
  }

  /** `match_indices_by_widget` after the first `n` panes: the match indices of every such pane that has a match. */
  function MatchMap(ls: seq<seq<ListItem>>, m: string, n: nat): (r: map<int, seq<nat>>)
    requires n <= |ls|
    ensures forall k :: k in r <==> 0 <= k < n && MatchIndices(ls[k], m) != []
    ensures forall k :: k in r ==> r[k] == MatchIndices(ls[k], m)
  {
    map k | 0 <= k < n && MatchIndices(ls[k], m) != [] :: MatchIndices(ls[k], m)
  }

  /** Adding pane `n` adds its entry when it has a match. */
  lemma MatchMapStep(ls: seq<seq<ListItem>>, m: string, n: nat)
    requires n < |ls|
    ensures MatchMap(ls, m, n + 1) ==
      if MatchIndices(ls[n], m) != [] then MatchMap(ls, m, n)[n := MatchIndices(ls[n], m)] else MatchMap(ls, m, n)
  {
  }

  /**
   * `last_idx` and `last_line` of `matches_in_boxes` after the first `n`
   * panes: the last pane with a match and its last matching line, or `(0, 0)`.
   */
  function LastMatch(ls: seq<seq<ListItem>>, m: string, n: nat): (nat, nat)
    requires n <= |ls|
  {
    match LastPaneWithMatch(ls, m, n)
    case Some(k) => (k, LastOr0(MatchIndices(ls[k], m)))
    case None => (0, 0)
  }

  /** Pane `n` takes over `last_idx` and `last_line` when it has a match. */
  lemma LastMatchStep(ls: seq<seq<ListItem>>, m: string, n: nat)
    requires n < |ls|
    ensures LastMatch(ls, m, n + 1) ==
      if MatchIndices(ls[n], m) != [] then (n, LastOr0(MatchIndices(ls[n], m))) else LastMatch(ls, m, n)
  {
  }

  /** The variables of `matches_in_boxes` after the first `n` panes. */
  ghost predicate Counted(ls: seq<seq<ListItem>>, m: string, n: nat, count: nat, lastIdx: nat, lastLine: nat,
                          byBox: map<int, seq<nat>>)
    requires n <= |ls|
  {
    count == TotalMatches(ls, m, n) && byBox == MatchMap(ls, m, n) && (lastIdx, lastLine) == LastMatch(ls, m, n)
  }

  /** Before the loop of `matches_in_boxes`: nothing counted yet. */
  lemma CountedStart(ls: seq<seq<ListItem>>, m: string)
    ensures Counted(ls, m, 0, 0, 0, 0, map[])
  {
    assert MatchMap(ls, m, 0) == map[];
  }

  /** One round of the loop of `matches_in_boxes`. */
  lemma CountedStep(ls: seq<seq<ListItem>>, m: string, n: nat, count: nat, lastIdx: nat, lastLine: nat,
                    byBox: map<int, seq<nat>>)
    requires n < |ls| && Counted(ls, m, n, count, lastIdx, lastLine, byBox)
    ensures var ms := MatchIndices(ls[n], m);
      if ms != [] then Counted(ls, m, n + 1, count + |ms|, n, LastOr0(ms), byBox[n := ms])
      else Counted(ls, m, n + 1, count, lastIdx, lastLine, byBox)
  {
    MatchMapStep(ls, m, n);
    LastMatchStep(ls, m, n);
  }

  /**
   * A single match in all panes is the one `matches_in_boxes` reports: the
   * last pane with a match holds it, at its last match line, and no other
   * pane has any.
   */
  lemma {:induction false} SingleMatch(ls: seq<seq<ListItem>>, m: string, n: nat) returns (k: nat)
    requires n <= |ls| && TotalMatches(ls, m, n) == 1
    ensures k < n && LastPaneWithMatch(ls, m, n) == Some(k) && |MatchIndices(ls[k], m)| == 1
    ensures forall j :: 0 <= j < n && j != k ==> MatchIndices(ls[j], m) == []
  {
    var last := MatchIndices(ls[n - 1], m);
    if last == [] {
      k := SingleMatch(ls, m, n - 1);
      forall j | 0 <= j < n && j != k
        ensures MatchIndices(ls[j], m) == []
      {
        if j == n - 1 {
          assert ls[j] == ls[n - 1];
        }
      }
    } else {
      k := n - 1;
      NoMatches(ls, m, n - 1);
    }
  }

  /**
   * When the panes hold exactly one match, the pane and line
   * `matches_in_boxes` reports are that match, and there is no other.
   */
  lemma SingleMatchIsOnlyHit(ls: seq<seq<ListItem>>, m: string)
    requires TotalMatches(ls, m, |ls|) == 1
    ensures var (k, line) := LastMatch(ls, m, |ls|);
      k < |ls| && Hit(ls[k], m, line) &&
      forall j, i :: 0 <= j < |ls| && Hit(ls[j], m, i) ==> j == k && i == line
  {
    var k := SingleMatch(ls, m, |ls|);
    var ms := MatchIndices(ls[k], m);
    var line := LastOr0(ms);
    assert line == ms[0] && line in ms;
    assert m != "";
    MatchIndicesAreHits(ls[k], m);
    forall j, i | 0 <= j < |ls| && Hit(ls[j], m, i)
      ensures j == k && i == line
    {
      MatchIndicesAreHits(ls[j], m);
      if j == k {
        assert i in ms;
      }
    }
  }

  /* ---------------------------------------------------------------------
   * Scanning a pane for the next match
   * ------------------------------------------------------------------- */

  /** `range(start, stop)`. */
  function RangeUp(start: int, stop: int): (r: seq<int>)
    ensures |r| == Max0(stop - start) && forall k :: 0 <= k < |r| ==> r[k] == start + k
  {
    seq(Max0(stop - start), k => start + k)
  }

  /** `range(start, stop, -1)`. */
  function RangeDown(start: int, stop: int): (r: seq<int>)
    ensures |r| == Max0(start - stop) && forall k :: 0 <= k < |r| ==> r[k] == start - k
  {
    seq(Max0(start - stop), k => start - k)
  }

  /**
   * The loop of `search_widget_and_scroll` from position `k` of the range
   * `js`: the first position whose index, taken modulo the number of
   * entries, is a hit.
   */
  function FirstHitAt(items: seq<ListItem>, m: string, js: seq<int>, k: nat): (r: Option<nat>)
    requires |items| > 0
    ensures r.Some? ==> (k <= r.value < |js| && Hit(items, m, js[r.value] % |items|) &&
      forall p :: k <= p < r.value ==> !Hit(items, m, js[p] % |items|))
    ensures r.None? ==> forall p :: k <= p < |js| ==> !Hit(items, m, js[p] % |items|)
    decreases |js| - k
  {
    if k >= |js| then None
    else if Hit(items, m, js[k] % |items|) then Some(k)
    else FirstHitAt(items, m, js, k + 1)
  }

  /**
   * The line `search_widget_and_scroll` moves the cursor to, if any: none
   * while the match string is empty or, when asked to, while the current
   * entry is already a match; else the first hit along the range.
   */
  function ScrollTarget(items: seq<ListItem>, m: string, js: seq<int>, skipIfOnMatch: bool, cur: int): (r: Option<nat>)
    requires |items| > 0
    ensures r.Some? ==> r.value < |items| && Hit(items, m, r.value)
  {
    if m == "" || (skipIfOnMatch && Hit(items, m, cur)) then None
    else
      match FirstHitAt(items, m, js, 0)
      case Some(p) => Some(js[p] % |items|)
      case None => None
  }

  /**
   * Scanning up a range of lines `[a, b)` (`search_widget_down` and
   * `search_widget_first`) lands on the lowest hit in it.
   */
  lemma ScanUp(items: seq<ListItem>, m: string, a: int, b: int)
    requires 0 <= a && b <= |items| && |items| > 0 && m != ""
    ensures var r := ScrollTarget(items, m, RangeUp(a, b), false, 0);
      (r.Some? ==> a <= r.value < b && forall j :: a <= j < r.value ==> !Hit(items, m, j)) &&
      (r.None? ==> forall j :: a <= j < b ==> !Hit(items, m, j))
  {
    var js := RangeUp(a, b);
    var n := |items|;
    forall p | 0 <= p < |js|
      ensures js[p] % n == a + p
    {
      ModOnce(a + p, n);
    }
    var r := FirstHitAt(items, m, js, 0);
    if r.None? {
      forall j | a <= j < b
        ensures !Hit(items, m, j)
      {
        assert js[j - a] % n == j;
      }
    } else {
      forall j | a <= j < js[r.value] % n
        ensures !Hit(items, m, j)
      {
        assert js[j - a] % n == j;
      }
    }
  }

  /**
   * Scanning down the lines from `a` to just above `b` (`search_widget_up`
   * and `search_widget_last`) lands on the highest hit in `(b, a]`.
   */
  lemma ScanDown(items: seq<ListItem>, m: string, a: int, b: int)
    requires -1 <= b && a < |items| && |items| > 0 && m != ""
    ensures var r := ScrollTarget(items, m, RangeDown(a, b), false, 0);
      (r.Some? ==> b < r.value <= a && forall j :: r.value < j <= a ==> !Hit(items, m, j)) &&
      (r.None? ==> forall j :: b < j <= a ==> !Hit(items, m, j))
  {
    var js := RangeDown(a, b);
    var n := |items|;
    forall p | 0 <= p < |js|
      ensures js[p] % n == a - p
    {
      ModOnce(a - p, n);
    }
    var r := FirstHitAt(items, m, js, 0);
    if r.None? {
      forall j | b < j <= a
        ensures !Hit(items, m, j)
      {
        assert js[a - j] % n == j;
      }
    } else {
      forall j | js[r.value] % n < j <= a
        ensures !Hit(items, m, j)
      {
        assert js[a - j] % n == j;
      }
    }
  }

  /** `x % n` for `x` below `2 * n`. */
  lemma ModOnce(x: int, n: int)
    requires 0 < n && 0 <= x < 2 * n
    ensures x % n == if x < n then x else x - n
  {
  }

  /** How many lines below `c` line `i` is, counting round the end of the list. */
  function Distance(c: int, i: int, n: int): int {
    if i >= c then i - c else i - c + n
  }

  /**
   * Scanning the whole pane round from the cursor `c` (`search_widget_all`)
   * finds a hit exactly when the pane has one, and lands on the first one
   * at or after the cursor, wrapping round the end.
   */
  lemma ScanAll(items: seq<ListItem>, m: string, c: int)
    requires 0 <= c < |items| && m != ""
    ensures var r := ScrollTarget(items, m, RangeUp(c, c + |items|), false, c);
      (r.None? <==> forall j :: 0 <= j < |items| ==> !Hit(items, m, j)) &&
      (r.Some? ==> forall j :: 0 <= j < |items| && Distance(c, j, |items|) < Distance(c, r.value, |items|) ==>
        !Hit(items, m, j))
  {
    var n := |items|;
    var js := RangeUp(c, c + n);
    var r := FirstHitAt(items, m, js, 0);
    var bound := if r.Some? then r.value else n;
    var t := ScrollTarget(items, m, js, false, c);
    if r.Some? {
      ModOnce(c + r.value, n);
      assert t == Some(js[r.value] % n);
      assert Distance(c, t.value, n) == r.value;
    } else {
      assert t == None;
    }
    forall j | 0 <= j < n && Distance(c, j, n) < bound
      ensures !Hit(items, m, j)
    {
      var p := Distance(c, j, n);
      ModOnce(c + p, n);
      assert js[p] % n == j;
    }
    assert forall j :: 0 <= j < n ==> Distance(c, j, n) < n;
  }

  /**
   * `t` is the first hit at or below line `c`, counting round the end of
   * the list: the line `search_widget_all` lands on.
   */
  predicate FirstHitRound(items: seq<ListItem>, m: string, c: int, t: int) {
    Hit(items, m, t) &&
    forall j :: 0 <= j < |items| && Distance(c, j, |items|) < Distance(c, t, |items|) ==> !Hit(items, m, j)
  }

  /** The cursor and the choice of `w` are on `line`, scrolled into view from the first line `top`. */
  ghost predicate LandedOn(w: ListBox, line: int, top: int)
    reads w
  {
    w.curLine == line && w.choice == line && w.topLine == ScrolledTop(top, line, w.height)
  }

  /* ---------------------------------------------------------------------
   * Searching the panes
   * ------------------------------------------------------------------- */

  /** The pane shows a match of a non-empty match string. */
  predicate PaneHasHit(items: seq<ListItem>, m: string) {
    m != "" && exists i :: 0 <= i < |items| && Hit(items, m, i)
  }

  /**
   * The loop of `search_widgets` from position `k` of the range `js` of
   * pane indices: the first position whose pane has a match.
   */
  function FirstPaneAt(ls: seq<seq<ListItem>>, m: string, js: seq<int>, k: nat): (r: Option<nat>)
    requires forall p :: 0 <= p < |js| ==> 0 <= js[p] < |ls|
    ensures r.Some? ==> (k <= r.value < |js| && PaneHasHit(ls[js[r.value]], m) &&
      forall p :: k <= p < r.value ==> !PaneHasHit(ls[js[p]], m))
    ensures r.None? ==> forall p :: k <= p < |js| ==> !PaneHasHit(ls[js[p]], m)
    decreases |js| - k
  {
    if k >= |js| then None
    else if PaneHasHit(ls[js[k]], m) then Some(k)
    else FirstPaneAt(ls, m, js, k + 1)
  }

  /** `search_widgets_right` looks at the panes right of the focused one, nearest first. */
  lemma PanesRight(ls: seq<seq<ListItem>>, m: string, f: int)
    requires 0 <= f < |ls|
    ensures var js := RangeUp(f + 1, |ls|); forall p :: 0 <= p < |js| ==> 0 <= js[p] < |ls|
    ensures var js := RangeUp(f + 1, |ls|); var r := FirstPaneAt(ls, m, js, 0);
      (r.Some? ==> f < js[r.value] && forall k :: f < k < js[r.value] ==> !PaneHasHit(ls[k], m)) &&
      (r.None? ==> forall k :: f < k < |ls| ==> !PaneHasHit(ls[k], m))
  {
    var js := RangeUp(f + 1, |ls|);
    var r := FirstPaneAt(ls, m, js, 0);
    var bound := if r.Some? then js[r.value] else |ls|;
    forall k | f < k < bound
      ensures !PaneHasHit(ls[k], m)
    {
      assert js[k - f - 1] == k;
    }
  }

  /** `search_widgets_left` looks at the panes left of the focused one, nearest first. */
  lemma PanesLeft(ls: seq<seq<ListItem>>, m: string, f: int)
    requires 0 <= f < |ls|
    ensures var js := RangeDown(f - 1, -1); forall p :: 0 <= p < |js| ==> 0 <= js[p] < |ls|
    ensures var js := RangeDown(f - 1, -1); var r := FirstPaneAt(ls, m, js, 0);
      (r.Some? ==> js[r.value] < f && forall k :: js[r.value] < k < f ==> !PaneHasHit(ls[k], m)) &&
      (r.None? ==> forall k :: 0 <= k < f ==> !PaneHasHit(ls[k], m))
  {
    var js := RangeDown(f - 1, -1);
    var r := FirstPaneAt(ls, m, js, 0);
    var bound := if r.Some? then js[r.value] else -1;
    forall k | bound < k < f
      ensures !PaneHasHit(ls[k], m)
    {
      assert js[f - 1 - k] == k;
    }
  }

  /** Some line in `[lo, hi)` is a hit. */
  predicate HitIn(items: seq<ListItem>, m: string, lo: int, hi: int) {
    exists j :: lo <= j < hi && Hit(items, m, j)
  }

  /** `t` is the lowest hit in `[lo, hi)`. */
  predicate LowestHit(items: seq<ListItem>, m: string, lo: int, hi: int, t: int) {
    lo <= t < hi && Hit(items, m, t) && forall j :: lo <= j < t ==> !Hit(items, m, j)
  }

  /** `t` is the highest hit in `[lo, hi)`. */
  predicate HighestHit(items: seq<ListItem>, m: string, lo: int, hi: int, t: int) {
    lo <= t < hi && Hit(items, m, t) && forall j :: t < j < hi ==> !Hit(items, m, j)
  }

  /* ---------------------------------------------------------------------
   * Layout
   * ------------------------------------------------------------------- */

  /** The column of pane `k` inside the dialog: every pane before it takes its width plus one separating column. */
  function ColumnOffset(bs: seq<ListBox>, k: nat): int
    requires k <= |bs|
  {
    if k == 0 then 0 else ColumnOffset(bs, k - 1) + bs[k - 1].width + 1
  }

  /** Panes of non-negative width are laid out left to right, one blank column between neighbours. */
  lemma {:induction false} ColumnsApart(bs: seq<ListBox>, j: nat, k: nat)
    requires j < k <= |bs|
    requires forall i :: 0 <= i < |bs| ==> bs[i].width >= 0
    ensures ColumnOffset(bs, j) + bs[j].width < ColumnOffset(bs, k)
    decreases k
  {
    if j < k - 1 {
      ColumnsApart(bs, j, k - 1);
    }
  }

  /** The screen columns of the first `n` panes when the first one starts at `x0`. */
  function Columns(x0: int, bs: seq<ListBox>, n: nat): (r: seq<int>)
    requires n <= |bs|
    ensures |r| == n
  {
    if n == 0 then [] else Columns(x0, bs, n - 1) + [x0 + ColumnOffset(bs, n - 1)]
  }

  /** Pane `k` starts at the first column plus its offset. */
  lemma {:induction false} ColumnsAt(x0: int, bs: seq<ListBox>, n: nat, k: nat)
    requires k < n <= |bs|
    ensures Columns(x0, bs, n)[k] == x0 + ColumnOffset(bs, k)
    decreases n
  {
    if k < n - 1 {
      ColumnsAt(x0, bs, n - 1, k);
    }
  }

  /** Exactly pane `i` has the focus flag. */
  ghost predicate OneFocused(bs: seq<ListBox>, i: int)
    reads bs`focus
  {
    forall k :: 0 <= k < |bs| ==> (bs[k].focus <==> k == i)
  }

  /** Pane `i` is the last of the panes with the focus flag: the one `layout` takes as focused. */
  ghost predicate LastFocused(bs: seq<ListBox>, i: int)
    reads bs`focus
  {
    0 <= i < |bs| && bs[i].focus && forall k :: i < k < |bs| ==> !bs[k].focus
  }

  /** No pane has the focus flag. */
  ghost predicate NoneFocused(bs: seq<ListBox>)
    reads bs`focus
  {
    forall k :: 0 <= k < |bs| ==> !bs[k].focus
  }

  /** When exactly one pane has the focus flag, it is the last one that has it. */
  lemma OneFocusedIsLast(bs: seq<ListBox>, i: int, j: int)
    requires OneFocused(bs, i) && 0 <= i < |bs|
    ensures !NoneFocused(bs)
    ensures LastFocused(bs, j) <==> j == i
  {
    assert bs[i].focus;
  }

  /** Panes appended without the focus flag leave the one focused pane the only one. */
  lemma OneFocusedExtended(before: seq<ListBox>, after: seq<ListBox>, i: int)
    requires |before| <= |after| && after[..|before|] == before && OneFocused(before, i) && 0 <= i < |before|
    requires forall k :: |before| <= k < |after| ==> !after[k].focus
    ensures OneFocused(after, i)
  {
    assert forall k :: 0 <= k < |before| ==> after[k] == before[k];
  }

  /**
   * The `focus_idx` that the loop of `layout` leaves when it starts from
   * the toolkit's -1: the last pane with the focus flag, -1 when none has it.
   */
  ghost function {:induction false} LastFocusIndex(bs: seq<ListBox>): (r: int)
    reads bs`focus
    ensures -1 <= r < |bs|
    ensures r >= 0 ==> LastFocused(bs, r)
    ensures r < 0 ==> NoneFocused(bs)
    decreases |bs|
  {
    if |bs| == 0 then -1
    else if bs[|bs| - 1].focus then |bs| - 1
    else LastFocusIndex(bs[..|bs| - 1])
  }

  /** At most one pane has the focus flag, and `found` is the one `layout` takes (-1: none). */
  ghost predicate FocusState(bs: seq<ListBox>, found: int)
    reads bs`focus
  {
    ListBoxes.FocusedAtMostOnce(bs) && LastFocusIndex(bs) == found
  }

  /** The pane the dialog opens focused on: the one with the focus flag, else the last. */
  ghost function OpeningFocus(bs: seq<ListBox>): int
    reads bs`focus
  {
    if LastFocusIndex(bs) >= 0 then LastFocusIndex(bs) else |bs| - 1
  }

  /** Only one pane is the last with the focus flag. */
  lemma LastFocusedUnique(bs: seq<ListBox>, i: int, j: int)
    requires LastFocused(bs, i) && LastFocused(bs, j)
    ensures i == j
  {
  }

  /** When at most one pane has the focus flag, the last one with it is the only one. */
  lemma LastFocusedIsOne(bs: seq<ListBox>, i: int)
    requires ListBoxes.FocusedAtMostOnce(bs) && LastFocused(bs, i)
    ensures OneFocused(bs, i)
  {
  }

  /**
   * As written, a stack that `boxes_for_path` built for a path the listings
   * stop short of, expanded by `expand_lists`, has no pane with the focus
   * flag: `layout` then leaves `focus_w` unset, and the constructor's
   * `make_focused_column_visible` reads the column of no pane.
   */
  lemma ShortPathLeavesNoFocus(lists: ListBoxes.ListBoxes, built: seq<ListBox>, initialPath: seq<string>, first: seq<string>)
    requires lists.Valid() && lists.BuiltFor(built, initialPath) && 0 < |built| < |initialPath|
    requires |built| <= |lists.boxes| && lists.boxes[..|built|] == built
    requires lists.AppendedFrom(lists.boxes, |built|, first)
    ensures NoneFocused(lists.boxes) && LastFocusIndex(lists.boxes) == -1
  {
    lists.BuiltFocus(built, initialPath);
    forall k | 0 <= k < |lists.boxes|
      ensures !lists.boxes[k].focus
    {
      if k < |built| {
        assert lists.boxes[k] == built[k];
      } else {
        lists.AppendedUnfocused(lists.boxes, |built|, first, k);
      }
    }
  }

  /** What `handle_key` returns. */
  datatype Reply =
      /** `None`: the key was consumed and the dialog goes on. */
    | NoReply
      /** `True`, from a search key: the dialog goes on. */
    | Handled
      /** `ACTION_OK`: the dialog ends with the focused path. */
    | Ok
      /** `ACTION_CANCEL`. */
    | Cancel
      /** The key itself, handed back to end the dialog (with the key's exit code, if it has one). */
    | KeyReply(key: Key)
      /** Whatever the focused list widget's own key handler returns. */
    | ToolkitReply

  /** `path[:-1]`: the string without its last character; the empty string stays empty. */
  function DropLast(s: string): (r: string)
    ensures s == "" ==> r == ""
    ensures s != "" ==> r + [s[|s| - 1]] == s
  {
    if s == "" then "" else s[..|s| - 1]
  }

  /** Typed text: input bytes that do not start with ESC. */
  predicate IsText(t: string) {
    !(|t| > 0 && t[0] == ESC)
  }

  /** The keys `handle_search_key` consumes, for which it returns true. */
  predicate IsSearchKey(k: Key) {
    k.Delete? || IsPaneSearchKey(k) || k.AltRight? || k.AltLeft? || k.Backspace? || (k.Typed? && IsText(k.text))
  }

  /** The list keys before which `handle_key` clears the search: Up, Down, PgUp and PgDn. */
  predicate ClearsSearch(k: Key) {
    k.Up? || k.Down? || k.PgUp? || k.PgDn?
  }

  /** The keys that search the focused pane: Alt with Up, Down, PgUp or PgDn. */
  predicate IsPaneSearchKey(k: Key) {
    k.AltUp? || k.AltDown? || k.AltPgUp? || k.AltPgDn?
  }

  /** `row` clamped into `[0, n)`, for `n > 0`. */
  function Clamp(row: int, n: int): int
    requires n > 0
  {
    if row < 0 then 0 else if row >= n then n - 1 else row
  }

  /* ---------------------------------------------------------------------
   * Committing a choice
   * ------------------------------------------------------------------- */

  /** The root history after `memorize_choice_in_list(i, True)` for panes `0..n-1` of a stack whose trail is `trail`. */
  function Committed(h: map<string, string>, trail: seq<string>, n: nat): map<string, string>
    requires n <= |trail|
  {
    if n == 0 then h else Committed(h, trail, n - 1)[StringPath(trail[..n - 1]) := trail[n - 1]]
  }

  /** The usage statistics after the same calls: each prefix `trail[..i+1]` counted once more. */
  function CommittedStats(t: Stats, trail: seq<string>, n: nat): Stats
    requires n <= |trail|
  {
    if n == 0 then t else Incr(CommittedStats(t, trail, n - 1), trail[..n])
  }

  /** A path that is none of the committed prefixes keeps its count. */
  lemma {:induction false} CommitKeepsOthers(t: Stats, trail: seq<string>, n: nat, other: seq<string>)
    requires n <= |trail|
    requires !(1 <= |other| <= n && other == trail[..|other|])
    ensures CountAt(CommittedStats(t, trail, n), other) == CountAt(t, other)
  {
    if n > 0 {
      CommitKeepsOthers(t, trail, n - 1, other);
      IncrKeepsOthers(CommittedStats(t, trail, n - 1), trail[..n], other);
    }
  }

  /** Committing `n` panes counts one more use of each of the `n` folders on the chosen path. */
  lemma {:induction false} CommitCountsEachPrefix(t: Stats, trail: seq<string>, n: nat, k: nat)
    requires 1 <= k <= n <= |trail|
    ensures CountAt(CommittedStats(t, trail, n), trail[..k]) == CountAt(t, trail[..k]) + 1
  {
    if k == n {
      CommitCountsNewest(t, trail, n);
    } else {
      var prev, p, q := CommittedStats(t, trail, n - 1), trail[..k], trail[..n];
      calc {
        CountAt(CommittedStats(t, trail, n), p);
        CountAt(Incr(prev, q), p);
        { assert |p| != |q|;
          IncrKeepsOthers(prev, q, p); }
        CountAt(prev, p);
        { CommitCountsEachPrefix(t, trail, n - 1, k); }
        CountAt(t, p) + 1;
      }
    }
  }

  /** The last committed pane's path is counted once, by the last call. */
  lemma {:induction false} CommitCountsNewest(t: Stats, trail: seq<string>, n: nat)
    requires 1 <= n <= |trail|
    ensures CountAt(CommittedStats(t, trail, n), trail[..n]) == CountAt(t, trail[..n]) + 1
  {
    var p := trail[..n];
    var prev := CommittedStats(t, trail, n - 1);
    calc {
      CountAt(CommittedStats(t, trail, n), p);
      CountAt(Incr(prev, p), p);
      { IncrCounts(prev, p); }
      CountAt(prev, p) + 1;
      { CommitKeepsOthers(t, trail, n - 1, p); }
      CountAt(t, p) + 1;
    }
  }

  /* ---------------------------------------------------------------------
   * The dialog
   * ------------------------------------------------------------------- */

  /**
   * The dialog: the pane stack it shows, the frame it is drawn in, and the
   * toolkit's dialog state, namely the children with the column each one
   * is placed at, and the focused child and its index.
   */
  class SelectPathDialog {
    const lists: ListBoxes.ListBoxes
    const frame: DynamicDialog.DynamicDialog
    const screenWidth: int
    /** Whether Esc cancels the dialog (an attribute of the toolkit's dialog class). */
    const finishOnEsc: bool
    /** The base exit codes of the exit-code table. */
    const codes: Codes
    /** The cursor line the toolkit's list widget moves to for a key, from the cursor line and the number of entries. */
    const listCursor: (Key, int, int) -> int
    var focusIdx: int
    var focusW: ListBox
    var childs: seq<ListBox>
    /** The screen column of each child, set when the toolkit adds it. */
    var childX: seq<int>

    /** Every child sits at the dialog's column plus its offset. */
    ghost predicate Placed()
      reads this, frame
    {
      childX == Columns(frame.x, childs, |childs|)
    }

    /**
     * The children are the panes of a valid, non-empty stack, and exactly
     * the focused child has the focus flag.
     */
    ghost predicate Focused()
      reads this, lists, lists.boxes, lists.oracle
    {
      lists.Valid() && |lists.boxes| > 0 && childs == lists.boxes &&
      0 <= focusIdx < |childs| && focusW == childs[focusIdx] && OneFocused(childs, focusIdx)
    }

    /** The children are focused as above and placed at their columns. */
    ghost predicate Valid()
      reads this, lists, lists.boxes, lists.oracle, frame
    {
      Focused() && Placed()
    }

    /**
     * `SelectPathDialog(folder_lists, ...)`: the frame at `(atX, atY)` of
     * the given size, with the toolkit's "no focused child" (`focus_idx`
     * -1; `focusW` holds a placeholder until `layout` sets it), the pane
     * stack expanded, laid out, and scrolled so that the focused pane's
     * right edge is on screen. The focused pane is the one with the focus
     * flag or, when no pane has it, the last pane of the stack as given.
     */
    constructor (folderLists: ListBoxes.ListBoxes, screenW: int, screenHeight: int,
                 w: int, h: int, atX: int, atY: int, paint: PaintContext.PaintContext,
                 exitCodes: Codes, escCancels: bool, toolkitCursor: (Key, int, int) -> int)
      requires folderLists.Valid() && |folderLists.boxes| > 0 && ListBoxes.FocusedAtMostOnce(folderLists.boxes)
      modifies folderLists`boxes, folderLists.boxes, paint`curX, paint`curY, paint.screen
      ensures Valid() && lists == folderLists
      ensures focusIdx == old(OpeningFocus(folderLists.boxes))
      ensures |lists.boxes| >= old(|folderLists.boxes|) && lists.boxes[..old(|folderLists.boxes|)] == old(folderLists.boxes)
      ensures childX[focusIdx] >= 0
      ensures 0 <= focusW.width <= screenWidth ==> childX[focusIdx] + focusW.width <= screenWidth
    {
      lists := folderLists;
      frame := new DynamicDialog.DynamicDialog(screenHeight, atX, atY, w, h, paint);
      screenWidth := screenW;
      finishOnEsc := escCancels;
      codes := exitCodes;
      listCursor := toolkitCursor;
      focusIdx := -1;
      focusW := folderLists.boxes[0];
      childs := [];
      childX := [];
      new;
      Open();
    }

    /**
     * The part of the constructor after the fields are set: expand, lay
     * out, focus the last pane of the stack as given when `layout` found no
     * pane with the focus flag, and scroll to the focused pane.
     */
    method Open()
      requires lists.Valid() && |lists.boxes| > 0 && ListBoxes.FocusedAtMostOnce(lists.boxes) && focusIdx == -1
      modifies this`childs, this`childX, this`focusIdx, this`focusW, lists`boxes, lists.boxes
      modifies frame`x, frame`h, frame`y, frame.ctx`curX, frame.ctx`curY, frame.ctx.screen
      ensures Valid()
      ensures focusIdx == old(OpeningFocus(lists.boxes))
      ensures |lists.boxes| >= old(|lists.boxes|) && lists.boxes[..old(|lists.boxes|)] == old(lists.boxes)
      ensures childX[focusIdx] >= 0
      ensures 0 <= focusW.width <= screenWidth ==> childX[focusIdx] + focusW.width <= screenWidth
    {
      var n := |lists.boxes|;
      ghost var found := ExpandStack();
      LayoutKeepingFocus(found);
      SettleFocus(n, found);
      MakeFocusedColumnVisible(true);
    }

    /** `expand_lists`, with what it keeps of the focus flags. */
    method ExpandStack() returns (ghost found: int)
      requires lists.Valid() && |lists.boxes| > 0 && ListBoxes.FocusedAtMostOnce(lists.boxes)
      modifies lists`boxes
      ensures lists.Valid() && ListBoxes.FocusedAtMostOnce(lists.boxes)
      ensures |lists.boxes| >= old(|lists.boxes|) && lists.boxes[..old(|lists.boxes|)] == old(lists.boxes)
      ensures forall k :: old(|lists.boxes|) <= k < |lists.boxes| ==> fresh(lists.boxes[k])
      ensures found == old(LastFocusIndex(lists.boxes)) && FocusState(lists.boxes, found)
    {
      ghost var before := lists.boxes;
      found := LastFocusIndex(before);
      lists.ExpandLists();
      ExpansionKeepsLastFocus(before, ListBoxes.Names(before));
    }

    /** `layout` on a stack with at most one focused pane, which keeps its flags. */
    method LayoutKeepingFocus(ghost found: int)
      requires lists.Valid() && |lists.boxes| > 0 && FocusState(lists.boxes, found)
      modifies this`childs, this`childX, this`focusIdx, this`focusW, Panes()`height
      modifies frame`h, frame`y, frame.ctx`curX, frame.ctx`curY, frame.ctx.screen
      ensures lists.Valid() && childs == lists.boxes && Placed() && FocusState(childs, found)
      ensures !NoneFocused(childs) ==> LastFocused(childs, focusIdx) && focusW == childs[focusIdx]
      ensures NoneFocused(childs) ==> focusIdx == old(focusIdx)
    {
      ghost var bs := lists.boxes;
      LayoutPlacing();
      assert FocusState(bs, found);
    }

    /** `layout`, with what it says of the children and the focused child. */
    method LayoutPlacing()
      requires lists.Valid() && |lists.boxes| > 0
      modifies this`childs, this`childX, this`focusIdx, this`focusW, Panes()`height
      modifies frame`h, frame`y, frame.ctx`curX, frame.ctx`curY, frame.ctx.screen
      ensures lists.Valid() && childs == lists.boxes && Placed()
      ensures !NoneFocused(childs) ==> LastFocused(childs, focusIdx) && focusW == childs[focusIdx]
      ensures NoneFocused(childs) ==> focusIdx == old(focusIdx) && focusW == old(focusW)
    {
      Layout();
    }

    /**
     * The correction after `layout`: when no pane has the focus flag, pane
     * `n - 1` (the last of the stack as given) takes it and becomes the
     * focused child; otherwise the focused child stays.
     */
    method SettleFocus(n: int, ghost found: int)
      requires lists.Valid() && childs == lists.boxes && Placed() && 0 < n <= |childs| && found < n
      requires FocusState(childs, found)
      requires !NoneFocused(childs) ==> LastFocused(childs, focusIdx) && focusW == childs[focusIdx]
      requires NoneFocused(childs) ==> focusIdx == -1
      modifies this`focusIdx, this`focusW, {childs[n - 1]}`focus
      ensures Valid() && childs == old(childs) && lists.boxes == old(lists.boxes) && childX == old(childX)
      ensures focusIdx == if found >= 0 then found else n - 1
    {
      if focusIdx < 0 {
        focusIdx := n - 1;
        focusW := childs[n - 1];
        focusW.focus := true;
        assert OneFocused(childs, focusIdx);
      } else {
        LastFocusedUnique(childs, found, focusIdx);
        LastFocusedIsOne(childs, focusIdx);
      }
    }

    /**
     * Expansion appends panes without the focus flag, so the last pane with
     * it stays the last, or none has it, and at most one does.
     */
    lemma ExpansionKeepsLastFocus(before: seq<ListBox>, first: seq<string>)
      requires lists.Valid() && 0 < |before| <= |lists.boxes| && lists.boxes[..|before|] == before
      requires lists.AppendedFrom(lists.boxes, |before|, first)
      requires ListBoxes.FocusedAtMostOnce(before)
      ensures ListBoxes.FocusedAtMostOnce(lists.boxes)
      ensures LastFocusIndex(lists.boxes) == LastFocusIndex(before)
    {
      forall k | |before| <= k < |lists.boxes|
        ensures !lists.boxes[k].focus
      {
        lists.AppendedUnfocused(lists.boxes, |before|, first, k);
      }
      assert forall k :: 0 <= k < |before| ==> lists.boxes[k] == before[k];
      var i := LastFocusIndex(before);
      if i >= 0 {
        LastFocusedUnique(lists.boxes, i, LastFocusIndex(lists.boxes));
      }
    }

    /** Expansion appends panes without the focus, so the one focused pane stays the only one. */
    lemma ExpansionKeepsFocus(before: seq<ListBox>, first: seq<string>, focused: nat)
      requires lists.Valid() && 0 < |before| <= |lists.boxes| && lists.boxes[..|before|] == before
      requires lists.AppendedFrom(lists.boxes, |before|, first)
      requires focused < |before| && OneFocused(before, focused)
      ensures OneFocused(lists.boxes, focused)
    {
      forall k | |before| <= k < |lists.boxes|
        ensures !lists.boxes[k].focus
      {
        lists.AppendedUnfocused(lists.boxes, |before|, first, k);
      }
      OneFocusedExtended(before, lists.boxes, focused);
    }

    /** The panes of the stack, as a set. */
    ghost function Panes(): set<ListBox>
      reads this, lists
    {
      set k | 0 <= k < |lists.boxes| :: lists.boxes[k]
    }

    /**
     * `layout`: asks the frame for the height of the longest list, gives
     * every pane the height of its list capped by the frame's, places the
     * panes left to right, and takes the last pane with the focus flag as
     * the focused child.
     */
    method Layout()
      requires lists.Valid() && |lists.boxes| > 0
      modifies this`childs, this`childX, this`focusIdx, this`focusW, Panes()`height
      modifies frame`h, frame`y, frame.ctx`curX, frame.ctx`curY, frame.ctx.screen
      ensures lists.Valid() && childs == lists.boxes && Placed()
      ensures frame.h == DynamicDialog.Min(old(lists.MaxChildHeight()), frame.screenHeight)
      ensures forall k :: 0 <= k < |childs| ==> childs[k].height == DynamicDialog.Min(|childs[k].items|, frame.h)
      ensures !NoneFocused(childs) ==> LastFocused(childs, focusIdx) && focusW == childs[focusIdx]
      ensures NoneFocused(childs) ==> focusIdx == old(focusIdx) && focusW == old(focusW)
    {
      frame.RequestHeight(lists.MaxChildHeight());
      PlaceChildren();
      lists.DisplayKeepsValid();
    }

    /**
     * The state of the loop of `layout` before pane `i`: the panes before it
     * have their height and column, and the focused child is the last of them
     * with the focus flag, or still `(f0, w0)` when none has it.
     */
    ghost predicate Placing(bs: seq<ListBox>, i: int, xs: seq<int>, column: int, found: bool, f0: int, w0: ListBox)
      reads this, frame, bs
    {
      0 <= i <= |bs| && ListBoxes.Distinct(bs) &&
      column == ColumnOffset(bs, i) && xs == Columns(frame.x, bs, i) &&
      (forall k :: 0 <= k < i ==> bs[k].height == DynamicDialog.Min(|bs[k].items|, frame.h)) &&
      (found ==> 0 <= focusIdx < i && bs[focusIdx].focus && focusW == bs[focusIdx] &&
                 forall k :: focusIdx < k < i ==> !bs[k].focus) &&
      (!found ==> focusIdx == f0 && focusW == w0 && forall k :: 0 <= k < i ==> !bs[k].focus)
    }

    /** The loop of `layout`, after the height request. */
    method PlaceChildren()
      requires ListBoxes.Distinct(lists.boxes)
      modifies this`childs, this`childX, this`focusIdx, this`focusW, Panes()`height
      ensures childs == lists.boxes && Placed()
      ensures forall k :: 0 <= k < |childs| ==> childs[k].height == DynamicDialog.Min(|childs[k].items|, frame.h)
      ensures !NoneFocused(childs) ==> LastFocused(childs, focusIdx) && focusW == childs[focusIdx]
      ensures NoneFocused(childs) ==> focusIdx == old(focusIdx) && focusW == old(focusW)
    {
      var bs := lists.boxes;
      var xs: seq<int> := [];
      var childColumn := 0;
      ghost var found := false;
      var i := 0;
      while i < |bs|
        invariant Placing(bs, i, xs, childColumn, found, old(focusIdx), old(focusW))
      {
        xs, childColumn, found := PlaceChild(bs, i, bs[i], xs, childColumn, found, old(focusIdx), old(focusW));
        i := i + 1;
      }
      childs := bs;
      childX := xs;
    }

    /** One round of the loop of `layout`: pane `i` gets its height and column, and becomes the focused child when it has the focus flag. */
    method PlaceChild(bs: seq<ListBox>, i: nat, child: ListBox, xs: seq<int>, column: int,
                      ghost found: bool, ghost f0: int, ghost w0: ListBox)
      returns (xs': seq<int>, column': int, ghost found': bool)
      requires i < |bs| && child == bs[i] && Placing(bs, i, xs, column, found, f0, w0)
      modifies this`focusIdx, this`focusW, child`height
      ensures Placing(bs, i + 1, xs', column', found', f0, w0)
    {
      child.height := DynamicDialog.Min(|child.items|, frame.h);
      xs' := xs + [frame.x + column];
      column' := column + child.width + 1;
      found' := found;
      if child.focus {
        focusW := child;
        focusIdx := i;
        found' := true;
      }
    }

    /**
     * `layout` when exactly pane `focused` has the focus flag: that pane
     * becomes the focused child, and every entry, cursor and flag stays.
     */
    method Relayout(ghost focused: int)
      requires lists.Valid() && 0 <= focused < |lists.boxes| && OneFocused(lists.boxes, focused)
      modifies this`childs, this`childX, this`focusIdx, this`focusW, Panes()`height
      modifies frame`h, frame`y, frame.ctx`curX, frame.ctx`curY, frame.ctx.screen
      ensures Valid() && focusIdx == focused && childs == lists.boxes && lists.boxes == old(lists.boxes)
      ensures focusW == lists.boxes[focused]
      ensures frame.h == DynamicDialog.Min(old(lists.MaxChildHeight()), frame.screenHeight)
    {
      ghost var bs := lists.boxes;
      Layout();
      assert childs == bs && OneFocused(bs, focused);
      OneFocusedIsLast(childs, focused, focusIdx);
    }

    /** The toolkit's `change_focus(w)`: the focus flag moves from the focused child to `w`. */
    method ChangeFocus(w: ListBox)
      modifies this`focusW, focusW`focus, w`focus
      ensures focusW == w
      ensures old(focusW) != w ==> w.focus && !old(focusW).focus
      ensures old(focusW) == w ==> w.focus == old(w.focus)
    {
      if w == focusW {
        return;
      }
      focusW.focus := false;
      focusW := w;
      w.focus := true;
    }

    /** `focus_idx = i` followed by `change_focus(boxes[i])`: pane `i` becomes the focused child. */
    method FocusPane(i: int)
      requires Valid() && 0 <= i < |childs|
      modifies this`focusIdx, this`focusW, focusW`focus, {childs[i]}`focus
      ensures Valid() && focusIdx == i
    {
      focusIdx := i;
      ChangeFocus(childs[i]);
    }

    /** The toolkit's `move_focus(d)`, every child taking the focus: `d` children on, round the end. */
    method MoveFocus(d: int)
      requires Valid()
      modifies this`focusIdx, this`focusW, focusW`focus, {childs[(focusIdx + d) % |childs|]}`focus
      ensures Valid() && focusIdx == (old(focusIdx) + d) % |childs|
      ensures 0 <= old(focusIdx) + d < |childs| ==> focusIdx == old(focusIdx) + d
      ensures forall k :: 0 <= k < |childs| ==> (childs[k].items == old(childs[k].items) &&
        childs[k].curLine == old(childs[k].curLine) && childs[k].topLine == old(childs[k].topLine))
    {
      if 0 <= focusIdx + d < |childs| {
        ModOnce(focusIdx + d, |childs|);
      }
      FocusPane((focusIdx + d) % |childs|);
    }

    /** `self.x += dx` then `layout()`: the dialog and every child move `dx` columns right. */
    method Shift(dx: int)
      requires Valid()
      modifies this`childs, this`childX, this`focusIdx, this`focusW, Panes()`height
      modifies frame`x, frame`h, frame`y, frame.ctx`curX, frame.ctx`curY, frame.ctx.screen
      ensures Valid() && focusIdx == old(focusIdx) && focusW == old(focusW) && childs == old(childs)
      ensures frame.x == old(frame.x) + dx && childX[focusIdx] == old(childX[focusIdx]) + dx
    {
      ColumnsAt(frame.x, childs, |childs|, focusIdx);
      frame.x := frame.x + dx;
      Relayout(focusIdx);
      ColumnsAt(frame.x, childs, |childs|, focusIdx);
    }

    /**
     * `moved_to_make_tail_visible`: when the focused pane's right edge is
     * past the screen's, shifts the dialog left so that it ends on it.
     */
    method MovedToMakeTailVisible() returns (moved: int)
      requires Valid()
      modifies this`childs, this`childX, this`focusIdx, this`focusW, Panes()`height
      modifies frame`x, frame`h, frame`y, frame.ctx`curX, frame.ctx`curY, frame.ctx.screen
      ensures Valid() && focusIdx == old(focusIdx) && focusW == old(focusW) && childs == old(childs)
      ensures moved == (if old(childX[focusIdx]) + focusW.width > screenWidth then 1 else 0)
      ensures moved == 1 ==> childX[focusIdx] + focusW.width == screenWidth
      ensures moved == 0 ==> frame.x == old(frame.x) && childX == old(childX)
    {
      var xTo := childX[focusIdx] + focusW.width;
      if xTo > screenWidth {
        Shift(-(xTo - screenWidth));
        return 1;
      }
      return 0;
    }

    /**
     * `moved_to_make_head_visible`: when the focused pane's left edge is
     * left of the screen, shifts the dialog right so that it starts at column 0.
     */
    method MovedToMakeHeadVisible() returns (moved: int)
      requires Valid()
      modifies this`childs, this`childX, this`focusIdx, this`focusW, Panes()`height
      modifies frame`x, frame`h, frame`y, frame.ctx`curX, frame.ctx`curY, frame.ctx.screen
      ensures Valid() && focusIdx == old(focusIdx) && focusW == old(focusW) && childs == old(childs)
      ensures moved == (if old(childX[focusIdx]) < 0 then 1 else 0)
      ensures moved == 1 ==> childX[focusIdx] == 0
      ensures moved == 0 ==> frame.x == old(frame.x) && childX == old(childX)
    {
      var x := childX[focusIdx];
      if x < 0 {
        Shift(-x);
        return 1;
      }
      return 0;
    }

    /**
     * `make_focused_column_visible(align_to_right)`: afterwards the focused
     * pane starts on screen, and, when aligning to the right, a pane that
     * fits on screen also ends on it. A pane already in view does not move.
     */
    method MakeFocusedColumnVisible(alignToRight: bool)
      requires Valid()
      modifies this`childs, this`childX, this`focusIdx, this`focusW, Panes()`height
      modifies frame`x, frame`h, frame`y, frame.ctx`curX, frame.ctx`curY, frame.ctx.screen
      ensures Valid() && focusIdx == old(focusIdx) && focusW == old(focusW) && childs == old(childs)
      ensures childX[focusIdx] >= 0
      ensures alignToRight && 0 <= focusW.width <= screenWidth ==> childX[focusIdx] + focusW.width <= screenWidth
      ensures old(childX[focusIdx]) >= 0 && (!alignToRight || old(childX[focusIdx]) + focusW.width <= screenWidth) ==>
        frame.x == old(frame.x)
    {
      var tail := 0;
      if alignToRight {
        tail := MovedToMakeTailVisible();
      }
      var head := MovedToMakeHeadVisible();
    }

    /* -------------------------------------------------------------------
     * Moving between panes
     * ----------------------------------------------------------------- */

    /**
     * The end of the Right, Left, Home and End branches of `handle_key`:
     * `make_focused_column_visible(align_to_right)`, then the focused pane
     * scrolls to its cursor.
     */
    method ShowFocused(alignToRight: bool)
      requires Valid()
      modifies this`childs, this`childX, this`focusIdx, this`focusW, Panes()`height, Panes()`topLine
      modifies frame`x, frame`h, frame`y, frame.ctx`curX, frame.ctx`curY, frame.ctx.screen
      ensures Valid() && focusIdx == old(focusIdx) && childs == old(childs)
      ensures childX[focusIdx] >= 0
    {
      MakeFocusedColumnVisible(alignToRight);
      ScrollToCursor(lists.boxes[focusIdx]);
    }

    /**
     * The Right branch of `handle_key`: the focus moves one pane right; from
     * the last pane, the dialog first tries to go into its selection, and
     * the focus stays when that fails.
     */
    method NavigateRight()
      requires Valid()
      modifies this`focusIdx, this`focusW, this`childs, this`childX, lists, lists.oracle, lists.boxes
      modifies frame`x, frame`h, frame`y, frame.ctx`curX, frame.ctx`curY, frame.ctx.screen
      ensures Valid()
      ensures old(focusIdx) < |old(lists.boxes)| - 1 ==> focusIdx == old(focusIdx) + 1 && lists.boxes == old(lists.boxes)
      ensures old(focusIdx) == |old(lists.boxes)| - 1 ==>
        if |lists.boxes| > |old(lists.boxes)| then focusIdx == old(focusIdx) + 1 else focusIdx == old(focusIdx)
    {
      Relayout(focusIdx);
      StepRight();
      ShowFocused(true);
    }

    /** The move of the Right branch of `handle_key`, between `layout()` and the scrolling. */
    method StepRight()
      requires Valid()
      modifies this`focusIdx, this`focusW, this`childs, this`childX, lists, lists.oracle, lists.boxes
      modifies frame`h, frame`y, frame.ctx`curX, frame.ctx`curY, frame.ctx.screen
      ensures Valid()
      ensures old(focusIdx) < |old(lists.boxes)| - 1 ==> focusIdx == old(focusIdx) + 1 && lists.boxes == old(lists.boxes)
      ensures old(focusIdx) == |old(lists.boxes)| - 1 ==>
        if |lists.boxes| > |old(lists.boxes)| then focusIdx == old(focusIdx) + 1 else focusIdx == old(focusIdx)
      ensures forall b :: b in Panes() ==> b in old(lists.boxes) || fresh(b)
    {
      if focusIdx == |lists.boxes| - 1 {
        var _ := GoIn();
      } else {
        MoveFocus(1);
      }
    }

    /**
     * `try_to_go_in(focus_idx)` from the last pane and, when it opens a
     * pane, `layout()` and `move_focus(1)`: the focus moves onto the new pane.
     */
    method GoIn() returns (went: bool)
      requires Valid() && focusIdx == |lists.boxes| - 1
      modifies this`focusIdx, this`focusW, this`childs, this`childX, lists, lists.oracle, lists.boxes
      modifies frame`h, frame`y, frame.ctx`curX, frame.ctx`curY, frame.ctx.screen
      ensures Valid()
      ensures went <==> |lists.boxes| > |old(lists.boxes)|
      ensures went ==> focusIdx == old(focusIdx) + 1 && lists.boxes[..|old(lists.boxes)|] == old(lists.boxes)
      ensures forall k :: |old(lists.boxes)| <= k < |lists.boxes| ==> fresh(lists.boxes[k])
      ensures !went ==> focusIdx == old(focusIdx) && lists.boxes == old(lists.boxes)
    {
      ghost var before := lists.boxes;
      ghost var trail := lists.Trail();
      went := lists.TryToGoIn(focusIdx);
      if went {
        NewPanesUnfocused(before, trail);
        assert forall k :: 0 <= k < |lists.boxes| ==> lists.boxes[k] in before || fresh(lists.boxes[k]);
        FocusNewPane(focusIdx + 1);
      }
    }

    /** The panes `try_to_go_in` appends come without the focus flag. */
    lemma NewPanesUnfocused(before: seq<ListBox>, trail: seq<string>)
      requires lists.Valid() && 0 < |before| < |lists.boxes| && lists.boxes[..|before|] == before
      requires OneFocused(before, |before| - 1) && lists.boxes[|before|].Valid() && !lists.boxes[|before|].focus
      requires lists.AppendedFrom(lists.boxes, |before| + 1, trail + [lists.boxes[|before|].Selected().name])
      ensures OneFocused(lists.boxes, |before| - 1)
    {
      forall k | |before| <= k < |lists.boxes|
        ensures !lists.boxes[k].focus
      {
        if k > |before| {
          lists.AppendedUnfocused(lists.boxes, |before| + 1, trail + [lists.boxes[|before|].Selected().name], k);
        }
      }
      OneFocusedExtended(before, lists.boxes, |before| - 1);
    }

    /** `layout()` then `move_focus(1)` after `try_to_go_in` added panes after pane `n - 1`, the focused one. */
    method FocusNewPane(n: nat)
      requires lists.Valid() && 0 < n < |lists.boxes| && OneFocused(lists.boxes, n - 1)
      modifies this`focusIdx, this`focusW, this`childs, this`childX, Panes()`height, Panes()`focus
      modifies frame`h, frame`y, frame.ctx`curX, frame.ctx`curY, frame.ctx.screen
      ensures Valid() && focusIdx == n && lists.boxes == old(lists.boxes)
    {
      Relayout(n - 1);
      MoveFocus(1);
    }

    /** The Left branch of `handle_key`: the focus moves one pane left, unless on the first. */
    method NavigateLeft()
      requires Valid()
      modifies this`focusIdx, this`focusW, this`childs, this`childX, lists.boxes
      modifies frame`x, frame`h, frame`y, frame.ctx`curX, frame.ctx`curY, frame.ctx.screen
      ensures Valid() && lists.boxes == old(lists.boxes)
      ensures focusIdx == if old(focusIdx) == 0 then 0 else old(focusIdx) - 1
    {
      ghost var f := focusIdx;
      Relayout(focusIdx);
      if focusIdx != 0 {
        MoveFocus(-1);
        assert focusIdx == f - 1;
      }
      ShowFocused(false);
    }

    /**
     * The Home and End branches of `handle_key`: the first pane, or the
     * last, becomes the focused child.
     */
    method NavigateToEnd(last: bool)
      requires Valid()
      modifies this`focusIdx, this`focusW, this`childs, this`childX, lists.boxes
      modifies frame`x, frame`h, frame`y, frame.ctx`curX, frame.ctx`curY, frame.ctx.screen
      ensures Valid() && lists.boxes == old(lists.boxes)
      ensures focusIdx == if last then |lists.boxes| - 1 else 0
    {
      Relayout(focusIdx);
      FocusPane(if last then |lists.boxes| - 1 else 0);
      ShowFocused(last);
    }

    /* -------------------------------------------------------------------
     * Keys
     * ----------------------------------------------------------------- */

    /**
     * A key `handle_key` hands back at once to end the dialog: one in the
     * exit-code table, other than Enter, Shift-Tab and Tab, and other than
     * Esc when Esc cancels.
     */
    predicate EndsDialog(key: Key) {
      InTable(codes, key) && !key.Enter? && !key.ShiftTab? && !key.Tab? && !(key.Esc? && finishOnEsc)
    }

    /**
     * `handle_key(key)`: Quit, Alt-Home and the keys of the exit-code table
     * end the dialog with the key itself (Alt-Home with no pane focused,
     * meaning the root), Esc cancels when the dialog is set to; the arrow,
     * Home and End keys move the focus between panes, and the rest goes to
     * the focused pane. While the dialog goes on, it stays valid.
     */
    method HandleKey(key: Key) returns (reply: Reply)
      requires Valid()
      modifies this`focusIdx, this`focusW, this`childs, this`childX, lists, lists.oracle, lists.boxes
      modifies frame`x, frame`h, frame`y, frame.ctx`curX, frame.ctx`curY, frame.ctx.screen
      ensures key.Quit? ==> reply == KeyReply(Quit)
      ensures key.Esc? && finishOnEsc ==> reply == Cancel
      ensures key.AltHome? ==> reply == KeyReply(AltHome) && focusIdx == -1
      ensures EndsDialog(key) ==> reply == KeyReply(key) && focusIdx == old(focusIdx)
      ensures reply.KeyReply? ==> reply.key == key && (key.Quit? || key.AltHome? || EndsDialog(key))
      ensures key.Delete? || key.Backspace? ==> reply == KeyReply(key)
      ensures key.Right? || key.Left? || key.Home? || key.End? ==> reply == NoReply
      ensures key.Home? ==> focusIdx == 0
      ensures key.End? ==> focusIdx == |lists.boxes| - 1
      ensures key.Left? ==> focusIdx == if old(focusIdx) == 0 then 0 else old(focusIdx) - 1
      ensures key.Right? && old(focusIdx) < |old(lists.boxes)| - 1 ==> focusIdx == old(focusIdx) + 1
      ensures key.Right? && old(focusIdx) == |old(lists.boxes)| - 1 ==>
        if |lists.boxes| > |old(lists.boxes)| then focusIdx == old(focusIdx) + 1 else focusIdx == old(focusIdx)
      ensures reply.NoReply? || reply.Handled? || reply.ToolkitReply? ==> Valid()
    {
      if key.Quit? {
        return KeyReply(Quit);
      }
      if key.Esc? && finishOnEsc {
        return Cancel;
      }
      if key.AltHome? {
        focusIdx := -1;
        return KeyReply(AltHome);
      }
      if EndsDialog(key) {
        return KeyReply(key);
      }
      if key.Right? || key.Left? || key.Home? || key.End? {
        Navigate(key);
        reply := NoReply;
      } else {
        reply := HandleFocusedKey(key);
      }
    }

    /** The arrow, Home and End branches of `handle_key`: the focus moves between the panes. */
    method Navigate(key: Key)
      requires Valid() && (key.Right? || key.Left? || key.Home? || key.End?)
      modifies this`focusIdx, this`focusW, this`childs, this`childX, lists, lists.oracle, lists.boxes
      modifies frame`x, frame`h, frame`y, frame.ctx`curX, frame.ctx`curY, frame.ctx.screen
      ensures Valid()
      ensures key.Home? ==> focusIdx == 0
      ensures key.End? ==> focusIdx == |lists.boxes| - 1
      ensures key.Left? ==> focusIdx == if old(focusIdx) == 0 then 0 else old(focusIdx) - 1
      ensures key.Right? && old(focusIdx) < |old(lists.boxes)| - 1 ==> focusIdx == old(focusIdx) + 1
      ensures key.Right? && old(focusIdx) == |old(lists.boxes)| - 1 ==>
        if |lists.boxes| > |old(lists.boxes)| then focusIdx == old(focusIdx) + 1 else focusIdx == old(focusIdx)
    {
      if key.Right? {
        NavigateRight();
      } else if key.Left? {
        NavigateLeft();
      } else {
        NavigateToEnd(key.End?);
      }
    }

    /* -------------------------------------------------------------------
     * Keys for the focused pane
     * ----------------------------------------------------------------- */

    /**
     * The branch of `handle_key` for the focused child: Shift-Tab ends the
     * dialog at the root, Tab with every pane chosen, Enter with the panes
     * up to the focused one, each committed to the oracle; a search key goes
     * to `handle_search_key`, any other key to the list widget (after
     * clearing the search string for Up, Down, PgUp and PgDn). After these
     * last two, the panes right of the focused one are rebuilt from its
     * selection and the dialog is laid out again.
     */
    method HandleFocusedKey(key: Key) returns (reply: Reply)
      requires Valid()
      modifies this`focusIdx, this`focusW, this`childs, this`childX, lists, lists.oracle, lists.boxes
      modifies frame`x, frame`h, frame`y, frame.ctx`curX, frame.ctx`curY, frame.ctx.screen
      ensures reply == Ok <==> key.ShiftTab? || key.Tab? || key.Enter?
      ensures reply == Handled <==> !key.ShiftTab? && !key.Tab? && !key.Enter? && IsSearchKey(key)
      ensures reply == ToolkitReply <==> !key.ShiftTab? && !key.Tab? && !key.Enter? && !IsSearchKey(key)
      ensures key.ShiftTab? ==> focusIdx == -1
      ensures key.Tab? ==> focusIdx == |lists.boxes| - 1
      ensures key.Enter? ==> focusIdx == old(focusIdx)
      ensures key.Tab? || key.Enter? ==> (lists.Valid() && lists.boxes == old(lists.boxes) &&
        lists.oracle.rootHistory == Committed(old(lists.oracle.rootHistory), lists.Trail(), focusIdx + 1) &&
        lists.oracle.usageStats == CommittedStats(old(lists.oracle.usageStats), lists.Trail(), focusIdx + 1))
      ensures reply != Ok ==> Valid()
      ensures reply == Handled && !(key.AltRight? || key.AltLeft? || key.Typed?) ==> focusIdx == old(focusIdx)
      ensures reply == ToolkitReply ==> focusIdx == old(focusIdx) && focusW == old(focusW)
      ensures reply == ToolkitReply && ClearsSearch(key) ==> lists.searchString == ""
      ensures reply == ToolkitReply && !ClearsSearch(key) ==>
        lists.searchString == old(lists.searchString) && focusW.items == old(focusW.items) &&
        focusW.curLine == Clamp(listCursor(key, old(focusW.curLine), |focusW.items|), |focusW.items|)
    {
      if key.ShiftTab? {
        focusIdx := -1;
        return Ok;
      }
      if key.Tab? || key.Enter? {
        CommitFocus(key.Tab?);
        return Ok;
      }
      reply := HandleInPane(key);
    }

    /**
     * The Tab and Enter branches of `handle_key`: Tab first moves the focus
     * to the last pane; then the selections up to the focused pane are
     * committed.
     */
    method CommitFocus(tab: bool)
      requires Valid()
      modifies this`focusIdx, lists.oracle
      ensures tab ==> focusIdx == |lists.boxes| - 1
      ensures !tab ==> focusIdx == old(focusIdx)
      ensures lists.Valid() && lists.boxes == old(lists.boxes)
      ensures lists.oracle.rootHistory == Committed(old(lists.oracle.rootHistory), lists.Trail(), focusIdx + 1)
      ensures lists.oracle.usageStats == CommittedStats(old(lists.oracle.usageStats), lists.Trail(), focusIdx + 1)
    {
      if tab {
        focusIdx := |lists.boxes| - 1;
      }
      assert lists.Valid() && -1 <= focusIdx < |lists.boxes|;
      ghost var bs := lists.boxes;
      Commit();
      assert lists.boxes == bs;
    }

    /**
     * The rest of the focused branch of `handle_key`: a search key is
     * handled here, any other key goes to the focused list (the arrows and
     * page keys clearing the search first); then the panes after the
     * focused one are rebuilt.
     */
    method HandleInPane(key: Key) returns (reply: Reply)
      requires Valid()
      modifies this`focusIdx, this`focusW, this`childs, this`childX, lists, lists.oracle, lists.boxes
      modifies frame`x, frame`h, frame`y, frame.ctx`curX, frame.ctx`curY, frame.ctx.screen
      ensures reply == Handled <==> IsSearchKey(key)
      ensures reply == ToolkitReply <==> !IsSearchKey(key)
      ensures Valid()
      ensures !(key.AltRight? || key.AltLeft? || (key.Typed? && IsSearchKey(key))) ==> focusIdx == old(focusIdx)
      ensures !IsSearchKey(key) ==> focusW == old(focusW)
      ensures !IsSearchKey(key) && ClearsSearch(key) ==> lists.searchString == ""
      ensures !IsSearchKey(key) && !ClearsSearch(key) ==>
        lists.searchString == old(lists.searchString) && focusW.items == old(focusW.items) &&
        focusW.curLine == Clamp(listCursor(key, old(focusW.curLine), |focusW.items|), |focusW.items|)
    {
      reply := DispatchKey(key);
      ghost var idx, w, ss, line, items := focusIdx, focusW, lists.searchString, focusW.curLine, focusW.items;
      Reactivate();
      assert focusIdx == idx && focusW == w && lists.searchString == ss;
      assert focusW.curLine == line && focusW.items == items;
    }

    /**
     * The key handling of `HandleInPane` before the panes are rebuilt: a
     * search key is handled by `handle_search_key`, any other key by the
     * focused list.
     */
    method DispatchKey(key: Key) returns (reply: Reply)
      requires Valid()
      modifies this`focusIdx, this`focusW, this`childs, this`childX, lists, lists.boxes
      modifies frame`x, frame`h, frame`y, frame.ctx`curX, frame.ctx`curY, frame.ctx.screen
      ensures reply == Handled <==> IsSearchKey(key)
      ensures reply == ToolkitReply <==> !IsSearchKey(key)
      ensures Valid() && lists.boxes == old(lists.boxes)
      ensures !(key.AltRight? || key.AltLeft? || (key.Typed? && IsSearchKey(key))) ==> focusIdx == old(focusIdx)
      ensures !IsSearchKey(key) ==> focusW == old(focusW)
      ensures !IsSearchKey(key) && ClearsSearch(key) ==> lists.searchString == ""
      ensures !IsSearchKey(key) && !ClearsSearch(key) ==>
        lists.searchString == old(lists.searchString) && focusW.items == old(focusW.items) &&
        focusW.curLine == Clamp(listCursor(key, old(focusW.curLine), |focusW.items|), |focusW.items|)
    {
      var handled := HandleSearchKey(key);
      if handled {
        reply := Handled;
      } else {
        PaneKey(key);
        reply := ToolkitReply;
      }
    }

    /**
     * The non-search branch of `handle_key`'s focused case: the arrows and
     * page keys clear the search, then the focused list handles the key.
     */
    method PaneKey(key: Key)
      requires Valid()
      modifies lists, lists.boxes
      ensures Valid()
      ensures ClearsSearch(key) ==> lists.searchString == ""
      ensures !ClearsSearch(key) ==>
        lists.searchString == old(lists.searchString) && focusW.items == old(focusW.items) &&
        focusW.curLine == Clamp(listCursor(key, old(focusW.curLine), |focusW.items|), |focusW.items|)
    {
      if ClearsSearch(key) {
        SearchPanes("");
      }
      ListKey(key);
    }

    /**
     * The toolkit's list widget handling a key on the focused child: the
     * cursor moves to the line `listCursor` gives, kept on the list, the
     * choice follows it, and the pane scrolls to it.
     */
    method ListKey(key: Key)
      requires Valid()
      modifies focusW`curLine, focusW`choice, focusW`topLine
      ensures Valid()
      ensures focusW.curLine == Clamp(listCursor(key, old(focusW.curLine), |focusW.items|), |focusW.items|)
      ensures focusW.choice == focusW.curLine
    {
      var w := focusW;
      var line := Clamp(listCursor(key, w.curLine, |w.items|), |w.items|);
      SetCursor(w, line);
      w.choice := line;
      lists.DisplayKeepsValid();
    }

    /**
     * `activate_sibling(focus_idx)` then `layout()`: the panes after the
     * focused one are rebuilt from its selection (`ActivateFocused`), and
     * the dialog is laid out again around the same focused pane.
     */
    method Reactivate()
      requires Valid()
      modifies this`focusIdx, this`focusW, this`childs, this`childX, lists`boxes, lists.oracle, Panes()`height
      modifies frame`h, frame`y, frame.ctx`curX, frame.ctx`curY, frame.ctx.screen
      ensures Valid() && focusIdx == old(focusIdx) && focusW == old(focusW)
    {
      ghost var before := lists.boxes[..focusIdx + 1];
      ActivateFocused();
      assert lists.boxes[focusIdx] == before[focusIdx];
      assert forall k :: 0 <= k < |lists.boxes| ==> lists.boxes[k] in before || fresh(lists.boxes[k]);
      Relayout(focusIdx);
    }

    /** `activate_sibling(focus_idx)`: the panes after the focused one are expanded anew, all without the focus flag. */
    method ActivateFocused()
      requires lists.Valid() && 0 <= focusIdx < |lists.boxes| && OneFocused(lists.boxes, focusIdx)
      modifies lists`boxes, lists.oracle
      ensures lists.Valid() && |lists.boxes| > focusIdx && OneFocused(lists.boxes, focusIdx)
      ensures lists.boxes[..focusIdx + 1] == old(lists.boxes[..focusIdx + 1])
      ensures forall k :: focusIdx < k < |lists.boxes| ==> fresh(lists.boxes[k])
    {
      ghost var before := lists.boxes[..focusIdx + 1];
      ghost var first := lists.Trail()[..focusIdx + 1];
      assert OneFocused(before, focusIdx);
      lists.ActivateSibling(focusIdx);
      ExpansionKeepsFocus(before, first, focusIdx);
    }

    /* -------------------------------------------------------------------
     * Searching
     * ----------------------------------------------------------------- */

    /**
     * `search_widget_and_scroll(search_range, skip_if_on_match, widget)`:
     * moves the cursor and the choice of `widget` to the line that
     * `ScrollTarget` names and scrolls it into view, and returns that line;
     * nothing moves when there is none.
     */
    method SearchWidgetAndScroll(js: seq<int>, skipIfOnMatch: bool, widget: ListBox) returns (r: Option<nat>)
      requires widget.Valid()
      modifies widget`curLine, widget`choice, widget`topLine
      ensures r == ScrollTarget(widget.items, lists.matchString, js, skipIfOnMatch, old(widget.curLine))
      ensures r.Some? ==> LandedOn(widget, r.value, old(widget.topLine))
      ensures r.None? ==> unchanged(widget)
    {
      var m := lists.matchString;
      if m == "" {
        return None;
      }
      if skipIfOnMatch && Find(ItemFileName(widget.items[widget.curLine]), m) != -1 {
        return None;
      }
      var n := |widget.items|;
      var p := 0;
      while p < |js|
        invariant 0 <= p <= |js| && unchanged(widget)
        invariant FirstHitAt(widget.items, m, js, p) == FirstHitAt(widget.items, m, js, 0)
      {
        var i := js[p] % n;
        if Find(ItemFileName(widget.items[i]), m) != -1 {
          widget.curLine := i;
          widget.choice := i;
          widget.MakeCurLineVisible();
          return Some(i);
        }
        p := p + 1;
      }
      return None;
    }

    /** `search_widget_up(widget)`: to the nearest match above the cursor. */
    method SearchWidgetUp(widget: ListBox)
      requires widget.Valid()
      modifies widget`curLine, widget`choice, widget`topLine
      ensures var m := lists.matchString; var c := old(widget.curLine);
        if m != "" && HitIn(widget.items, m, 0, c)
        then HighestHit(widget.items, m, 0, c, widget.curLine) && LandedOn(widget, widget.curLine, old(widget.topLine))
        else unchanged(widget)
    {
      ghost var c := widget.curLine;
      var r := SearchWidgetAndScroll(RangeDown(widget.curLine - 1, -1), false, widget);
      if lists.matchString != "" {
        ScanDown(widget.items, lists.matchString, c - 1, -1);
      }
    }

    /** `search_widget_down(widget)`: to the nearest match below the cursor. */
    method SearchWidgetDown(widget: ListBox)
      requires widget.Valid()
      modifies widget`curLine, widget`choice, widget`topLine
      ensures var m := lists.matchString; var c := old(widget.curLine);
        if m != "" && HitIn(widget.items, m, c + 1, |widget.items|)
        then LowestHit(widget.items, m, c + 1, |widget.items|, widget.curLine) &&
          LandedOn(widget, widget.curLine, old(widget.topLine))
        else unchanged(widget)
    {
      ghost var c := widget.curLine;
      var r := SearchWidgetAndScroll(RangeUp(widget.curLine + 1, |widget.items|), false, widget);
      if lists.matchString != "" {
        ScanUp(widget.items, lists.matchString, c + 1, |widget.items|);
      }
    }

    /** `search_widget_first(widget)`: to the first match of the pane. */
    method SearchWidgetFirst(widget: ListBox)
      requires widget.Valid()
      modifies widget`curLine, widget`choice, widget`topLine
      ensures var m := lists.matchString;
        if m != "" && HitIn(widget.items, m, 0, |widget.items|)
        then LowestHit(widget.items, m, 0, |widget.items|, widget.curLine) &&
          LandedOn(widget, widget.curLine, old(widget.topLine))
        else unchanged(widget)
    {
      var r := SearchWidgetAndScroll(RangeUp(0, |widget.items|), false, widget);
      if lists.matchString != "" {
        ScanUp(widget.items, lists.matchString, 0, |widget.items|);
      }
    }

    /** `search_widget_last(widget)`: to the last match of the pane, if it is below the cursor. */
    method SearchWidgetLast(widget: ListBox)
      requires widget.Valid()
      modifies widget`curLine, widget`choice, widget`topLine
      ensures var m := lists.matchString; var c := old(widget.curLine);
        if m != "" && HitIn(widget.items, m, c + 1, |widget.items|)
        then HighestHit(widget.items, m, c + 1, |widget.items|, widget.curLine) &&
          LandedOn(widget, widget.curLine, old(widget.topLine))
        else unchanged(widget)
    {
      ghost var c := widget.curLine;
      var r := SearchWidgetAndScroll(RangeDown(|widget.items| - 1, widget.curLine), false, widget);
      if lists.matchString != "" {
        ScanDown(widget.items, lists.matchString, |widget.items| - 1, c);
      }
    }

    /**
     * `search_widget_all(widget, skip_if_on_match)`: round the whole pane
     * from the cursor, to the first match at or below it, unless asked to
     * stay on a cursor that is already on a match.
     */
    method SearchWidgetAll(widget: ListBox, skipIfOnMatch: bool) returns (r: Option<nat>)
      requires widget.Valid()
      modifies widget`curLine, widget`choice, widget`topLine
      ensures skipIfOnMatch && Hit(widget.items, lists.matchString, old(widget.curLine)) ==> r.None?
      ensures !(skipIfOnMatch && Hit(widget.items, lists.matchString, old(widget.curLine))) ==>
        (r.Some? <==> PaneHasHit(widget.items, lists.matchString)) &&
        (r.Some? ==> FirstHitRound(widget.items, lists.matchString, old(widget.curLine), r.value))
      ensures r.Some? ==> LandedOn(widget, r.value, old(widget.topLine))
      ensures r.None? ==> unchanged(widget)
    {
      ghost var c := widget.curLine;
      r := SearchWidgetAndScroll(RangeUp(widget.curLine, widget.curLine + |widget.items|), skipIfOnMatch, widget);
      if lists.matchString != "" {
        ScanAll(widget.items, lists.matchString, c);
      }
    }

    /**
     * `search_widget_get_matches(widget)`: the lines of the pane that match,
     * their number, and the last of them (0 when there is none).
     */
    method SearchWidgetGetMatches(widget: ListBox) returns (count: nat, lastLine: nat, indices: seq<nat>)
      ensures indices == MatchIndices(widget.items, lists.matchString)
      ensures count == |indices| && lastLine == LastOr0(indices)
    {
      count, lastLine, indices := 0, 0, [];
      var m := lists.matchString;
      if m != "" {
        var i := 0;
        while i < |widget.items|
          invariant 0 <= i <= |widget.items|
          invariant indices == HitsBelow(widget.items, m, i) && count == |indices| && lastLine == LastOr0(indices)
        {
          if Find(ItemFileName(widget.items[i]), m) != -1 {
            count := count + 1;
            lastLine := i;
            indices := indices + [i];
          }
          i := i + 1;
        }
      }
    }

    /**
     * `matches_in_boxes()`: the number of matches in all panes, the last
     * pane with a match and its last matching line (both 0 when there is
     * none), and the matching lines of each pane that has some.
     */
    method MatchesInBoxes() returns (count: nat, lastIdx: nat, lastLine: nat, byBox: map<int, seq<nat>>)
      ensures var ls := Shown(lists.boxes);
        count == TotalMatches(ls, lists.matchString, |ls|) && byBox == MatchMap(ls, lists.matchString, |ls|) &&
        (lastIdx, lastLine) == LastMatch(ls, lists.matchString, |ls|)
    {
      count, lastIdx, lastLine, byBox := 0, 0, 0, map[];
      var bs := lists.boxes;
      ghost var ls := Shown(bs);
      ghost var m := lists.matchString;
      CountedStart(ls, m);
      var idx := 0;
      while idx < |bs|
        invariant 0 <= idx <= |bs| && Counted(ls, m, idx, count, lastIdx, lastLine, byBox)
      {
        assert bs[idx].items == ls[idx];
        var matchesInWidget, lastMatchLine, matchIndices := SearchWidgetGetMatches(bs[idx]);
        count, lastIdx, lastLine, byBox :=
          Tally(ls, m, idx, count, lastIdx, lastLine, byBox, matchesInWidget, lastMatchLine, matchIndices);
        idx := idx + 1;
      }
      assert ls == Shown(lists.boxes) && m == lists.matchString && |ls| == idx;
    }

    /** The body of the loop of `matches_in_boxes`: pane `idx` joins the tally when it has a match. */
    static method Tally(ghost ls: seq<seq<ListItem>>, ghost m: string, idx: nat, count: nat, lastIdx: nat, lastLine: nat,
                        byBox: map<int, seq<nat>>, matchesInWidget: nat, lastMatchLine: nat, matchIndices: seq<nat>)
      returns (count': nat, lastIdx': nat, lastLine': nat, byBox': map<int, seq<nat>>)
      requires idx < |ls| && Counted(ls, m, idx, count, lastIdx, lastLine, byBox)
      requires matchIndices == MatchIndices(ls[idx], m)
      requires matchesInWidget == |matchIndices| && lastMatchLine == LastOr0(matchIndices)
      ensures Counted(ls, m, idx + 1, count', lastIdx', lastLine', byBox')
    {
      CountedStep(ls, m, idx, count, lastIdx, lastLine, byBox);
      count', lastIdx', lastLine', byBox' := count, lastIdx, lastLine, byBox;
      if matchesInWidget > 0 {
        count' := count + matchesInWidget;
        lastIdx' := idx;
        lastLine' := lastMatchLine;
        byBox' := byBox[idx := matchIndices];
      }
    }

    /**
     * `search_widgets(search_range)`: the panes of the range in turn, until
     * one has a match; its cursor moves to its first match round from the
     * cursor, it becomes `focus_idx`, and the line is returned. The focused
     * child and the focus flags stay as they are.
     */
    method SearchWidgets(js: seq<int>) returns (r: Option<nat>)
      requires ListBoxes.AllValid(lists.boxes) && forall p :: 0 <= p < |js| ==> 0 <= js[p] < |lists.boxes|
      modifies this`focusIdx, Panes()`curLine, Panes()`choice, Panes()`topLine
      ensures var f := FirstPaneAt(old(Shown(lists.boxes)), lists.matchString, js, 0);
        (f.None? <==> r.None?) && (f.Some? ==> focusIdx == js[f.value])
      ensures r.None? ==> focusIdx == old(focusIdx)
      ensures r.Some? ==> 0 <= focusIdx < |lists.boxes|
      ensures r.Some? ==> var b := lists.boxes[focusIdx];
        FirstHitRound(b.items, lists.matchString, old(b.curLine), r.value) && LandedOn(b, r.value, old(b.topLine))
      ensures forall b :: b in lists.boxes && (r.None? || b != lists.boxes[focusIdx]) ==>
        b.curLine == old(b.curLine) && b.choice == old(b.choice) && b.topLine == old(b.topLine)
      ensures forall b :: b in lists.boxes ==> 0 <= b.curLine < |b.items|
    {
      var bs := lists.boxes;
      ghost var ls := Shown(bs);
      var p := 0;
      while p < |js|
        invariant 0 <= p <= |js| && focusIdx == old(focusIdx)
        invariant FirstPaneAt(ls, lists.matchString, js, p) == FirstPaneAt(ls, lists.matchString, js, 0)
        invariant forall b :: b in bs ==> b.curLine == old(b.curLine) && b.choice == old(b.choice) && b.topLine == old(b.topLine)
        invariant ListBoxes.AllValid(bs)
      {
        var i := js[p];
        assert bs[i].items == ls[i];
        r := SearchOnePane(bs[i]);
        if r.Some? {
          assert FirstPaneAt(ls, lists.matchString, js, p) == Some(p);
          focusIdx := i;
          return;
        }
        assert FirstPaneAt(ls, lists.matchString, js, p) == FirstPaneAt(ls, lists.matchString, js, p + 1);
        p := p + 1;
      }
      r := None;
    }

    /** One pane of `search_widgets`: `search_widget(box, skip_if_on_match=False)` on pane `w`. */
    method SearchOnePane(w: ListBox) returns (r: Option<nat>)
      requires ListBoxes.AllValid(lists.boxes) && w in lists.boxes
      modifies w`curLine, w`choice, w`topLine
      ensures r.Some? <==> PaneHasHit(w.items, lists.matchString)
      ensures r.Some? ==> FirstHitRound(w.items, lists.matchString, old(w.curLine), r.value) && LandedOn(w, r.value, old(w.topLine))
      ensures r.None? ==> unchanged(w)
      ensures forall b :: b in lists.boxes ==> 0 <= b.curLine < |b.items|
    {
      assert w.Valid();
      r := SearchWidgetAll(w, false);
    }

    /**
     * `search_widgets_right()`: `focus_idx` moves to the nearest pane right
     * of it that has a match, if any.
     */
    method SearchWidgetsRight() returns (r: Option<nat>)
      requires ListBoxes.AllValid(lists.boxes) && 0 <= focusIdx < |lists.boxes|
      modifies this`focusIdx, Panes()`curLine, Panes()`choice, Panes()`topLine
      ensures forall b :: b in lists.boxes ==> 0 <= b.curLine < |b.items|
      ensures var ls := old(Shown(lists.boxes)); var f := old(focusIdx);
        r.Some? ==> f < focusIdx < |ls| && PaneHasHit(ls[focusIdx], lists.matchString) &&
                    forall k :: f < k < focusIdx ==> !PaneHasHit(ls[k], lists.matchString)
      ensures var ls := old(Shown(lists.boxes)); var f := old(focusIdx);
        r.None? ==> focusIdx == f && forall k :: f < k < |ls| ==> !PaneHasHit(ls[k], lists.matchString)
    {
      PanesRight(Shown(lists.boxes), lists.matchString, focusIdx);
      r := SearchWidgets(RangeUp(focusIdx + 1, |lists.boxes|));
    }

    /**
     * `search_widgets_left()`: `focus_idx` moves to the nearest pane left
     * of it that has a match, if any.
     */
    method SearchWidgetsLeft() returns (r: Option<nat>)
      requires ListBoxes.AllValid(lists.boxes) && 0 <= focusIdx < |lists.boxes|
      modifies this`focusIdx, Panes()`curLine, Panes()`choice, Panes()`topLine
      ensures forall b :: b in lists.boxes ==> 0 <= b.curLine < |b.items|
      ensures var ls := old(Shown(lists.boxes)); var f := old(focusIdx);
        r.Some? ==> 0 <= focusIdx < f && PaneHasHit(ls[focusIdx], lists.matchString) &&
                    forall k :: focusIdx < k < f ==> !PaneHasHit(ls[k], lists.matchString)
      ensures var ls := old(Shown(lists.boxes)); var f := old(focusIdx);
        r.None? ==> focusIdx == f && forall k :: 0 <= k < f ==> !PaneHasHit(ls[k], lists.matchString)
    {
      PanesLeft(Shown(lists.boxes), lists.matchString, focusIdx);
      r := SearchWidgets(RangeDown(focusIdx - 1, -1));
    }

    /**
     * `change_focus(box)` then `make_focused_column_visible(True)`: the
     * child at `focusIdx`, reached by a search, takes the keyboard focus
     * from the child `was` that held it, and the dialog scrolls to show it.
     */
    method RevealFound(ghost was: int)
      requires lists.Valid() && |lists.boxes| > 0 && childs == lists.boxes && Placed()
      requires 0 <= was < |childs| && focusW == childs[was] && OneFocused(childs, was)
      requires 0 <= focusIdx < |childs|
      modifies this`focusIdx, this`focusW, this`childs, this`childX, Panes()`focus, Panes()`height
      modifies frame`x, frame`h, frame`y, frame.ctx`curX, frame.ctx`curY, frame.ctx.screen
      ensures Valid() && focusIdx == old(focusIdx) && childs == old(childs)
      ensures childX[focusIdx] >= 0
    {
      ChangeFocus(childs[focusIdx]);
      lists.DisplayKeepsValid();
      MakeFocusedColumnVisible(true);
    }

    /** `folder_lists.search(s)` from the dialog: the panes stay its children, with the same focus. */
    method SearchPanes(s: string)
      requires Valid()
      modifies lists, lists.boxes
      ensures Valid() && lists.searchString == s && lists.boxes == old(lists.boxes)
    {
      lists.Search(s);
    }

    /**
     * The single-match branch of typed text: pane `idx` becomes the
     * focused child with its cursor, not its choice, on `line`, scrolled
     * into view.
     */
    method JumpToMatch(idx: nat, line: nat)
      requires Valid() && idx < |childs| && line < |childs[idx].items|
      modifies this`focusIdx, this`focusW, this`childs, this`childX
      modifies Panes()`curLine, Panes()`topLine, Panes()`focus, Panes()`height
      modifies frame`x, frame`h, frame`y, frame.ctx`curX, frame.ctx`curY, frame.ctx.screen
      ensures Valid() && focusIdx == idx && childs == old(childs)
      ensures childs[idx].curLine == line
      ensures childX[idx] >= 0
    {
      ghost var was := focusIdx;
      focusIdx := idx;
      SetCursor(lists.boxes[idx], line);
      RevealFound(was);
    }

    /** `box.cur_line = line` then `box.make_cur_line_visible()`, for a pane of the stack. */
    method SetCursor(box: ListBox, line: nat)
      requires lists.Valid() && box in lists.boxes && line < |box.items|
      modifies box`curLine, box`topLine
      ensures lists.Valid() && box.curLine == line
    {
      box.curLine := line;
      lists.DisplayKeepsValid();
      ScrollToCursor(box);
    }

    /** `box.make_cur_line_visible()` for a pane of the stack. */
    method ScrollToCursor(box: ListBox)
      requires lists.Valid() && box in lists.boxes
      modifies box`topLine
      ensures lists.Valid() && box.topLine == ScrolledTop(old(box.topLine), box.curLine, box.height)
    {
      box.MakeCurLineVisible();
      lists.DisplayKeepsValid();
    }

    /**
     * Typed text in `handle_search_key`: the search string grows by `text`
     * and the panes are narrowed to it. When the panes then hold exactly
     * one match, its pane becomes the focused child with the cursor on it;
     * otherwise the focus stays where it was.
     */
    method TypeAhead(text: string)
      requires Valid()
      modifies lists, lists.boxes, this`focusIdx, this`focusW, this`childs, this`childX
      modifies frame`x, frame`h, frame`y, frame.ctx`curX, frame.ctx`curY, frame.ctx.screen
      ensures Valid() && childs == old(childs)
      ensures lists.searchString == old(lists.searchString) + text
      ensures var ls := Shown(lists.boxes); var m := lists.matchString;
        TotalMatches(ls, m, |ls|) == 1 ==> Hit(ls[focusIdx], m, childs[focusIdx].curLine)
      ensures var ls := Shown(lists.boxes);
        TotalMatches(ls, lists.matchString, |ls|) != 1 ==> focusIdx == old(focusIdx)
    {
      SearchPanes(lists.searchString + text);
      var _, _ := FollowTyped();
    }

    /**
     * The part of typed text after the search: `matches_in_boxes()`, then
     * the branches on its result. Returns the count and, as ghost, the
     * entries of the panes, which the branches do not change.
     */
    method FollowTyped() returns (count: nat, ghost ls: seq<seq<ListItem>>)
      requires Valid()
      modifies this`focusIdx, this`focusW, this`childs, this`childX
      modifies Panes()`curLine, Panes()`topLine, Panes()`focus, Panes()`height
      modifies frame`x, frame`h, frame`y, frame.ctx`curX, frame.ctx`curY, frame.ctx.screen
      ensures Valid() && childs == old(childs)
      ensures ls == Shown(lists.boxes) && count == TotalMatches(ls, lists.matchString, |ls|)
      ensures count == 1 ==> Hit(ls[focusIdx], lists.matchString, childs[focusIdx].curLine)
      ensures count != 1 ==> focusIdx == old(focusIdx)
    {
      var idx, line, focusedHasMatch;
      count, idx, line, focusedHasMatch, ls := LocateMatches();
      ghost var m := lists.matchString;
      FollowMatch(count == 1, idx, line, focusedHasMatch);
      ShownIs(lists.boxes, ls);
      assert m == lists.matchString;
    }

    /**
     * `matches_in_boxes()` as typed text uses it: the number of matches,
     * the pane and line of the match when it is the only one, and whether
     * the focused pane has a match.
     */
    method LocateMatches() returns (count: nat, idx: nat, line: nat, focusedHasMatch: bool, ghost ls: seq<seq<ListItem>>)
      ensures ls == Shown(lists.boxes) && count == TotalMatches(ls, lists.matchString, |ls|)
      ensures count == 1 ==> idx < |ls| && Hit(ls[idx], lists.matchString, line)
      ensures focusedHasMatch <==> 0 <= focusIdx < |ls| && MatchIndices(ls[focusIdx], lists.matchString) != []
    {
      var byBox;
      count, idx, line, byBox := MatchesInBoxes();
      ls := Shown(lists.boxes);
      if count == 1 {
        SingleMatchIsOnlyHit(ls, lists.matchString);
      }
      focusedHasMatch := focusIdx in byBox;
    }

    /**
     * The branches after `matches_in_boxes()` for typed text: on a single
     * match at line `line` of pane `idx`, that pane becomes the focused
     * child with the cursor there; else, when the focused pane has matches,
     * it is scrolled to its cursor.
     */
    method FollowMatch(single: bool, idx: nat, line: nat, scrollFocused: bool)
      requires Valid() && (single ==> idx < |childs| && line < |childs[idx].items|)
      modifies this`focusIdx, this`focusW, this`childs, this`childX
      modifies Panes()`curLine, Panes()`topLine, Panes()`focus, Panes()`height
      modifies frame`x, frame`h, frame`y, frame.ctx`curX, frame.ctx`curY, frame.ctx.screen
      ensures Valid() && childs == old(childs)
      ensures single ==> focusIdx == idx && childs[idx].curLine == line
      ensures !single ==> focusIdx == old(focusIdx)
      ensures forall b :: b in lists.boxes ==> b.items == old(b.items)
    {
      if single {
        JumpToMatch(idx, line);
      } else if scrollFocused {
        ScrollToCursor(lists.boxes[focusIdx]);
      }
    }

    /**
     * The loop of the Enter and Tab branches of `handle_key`:
     * `memorize_choice_in_list(i, True)` for every pane up to `focus_idx`,
     * so that the root history records each selection under the path
     * before it and the usage statistics count each folder on the chosen
     * path once more.
     */
    method Commit()
      requires lists.Valid() && -1 <= focusIdx < |lists.boxes|
      modifies lists.oracle
      ensures lists.Valid()
      ensures lists.oracle.rootHistory == Committed(old(lists.oracle.rootHistory), lists.Trail(), focusIdx + 1)
      ensures lists.oracle.usageStats == CommittedStats(old(lists.oracle.usageStats), lists.Trail(), focusIdx + 1)
      ensures lists.oracle.visitHistory == old(lists.oracle.visitHistory)
    {
      ghost var trail := lists.Trail();
      var i := 0;
      while i < focusIdx + 1
        invariant 0 <= i <= focusIdx + 1 && lists.Valid() && lists.Trail() == trail
        invariant lists.oracle.rootHistory == Committed(old(lists.oracle.rootHistory), trail, i)
        invariant lists.oracle.usageStats == CommittedStats(old(lists.oracle.usageStats), trail, i)
        invariant lists.oracle.visitHistory == old(lists.oracle.visitHistory)
        invariant GetEntry(lists.oracle.usageStats, trail[..i]).Some?
      {
        lists.MemorizeOnTrail(i, trail);
        i := i + 1;
      }
    }


    /**
     * `handle_search_key(key)`: Delete clears the search string and the
     * match string, Backspace searches for the search string without its
     * last character, typed text searches for the search string extended
     * by it, the Alt arrow keys move to the next match in the focused pane
     * or to the nearest pane to the side with a match. Returns whether the
     * key was one of these.
     */
    method HandleSearchKey(key: Key) returns (handled: bool)
      requires Valid()
      modifies lists, lists.boxes, this`focusIdx, this`focusW, this`childs, this`childX
      modifies frame`x, frame`h, frame`y, frame.ctx`curX, frame.ctx`curY, frame.ctx.screen
      ensures Valid() && childs == old(childs)
      ensures handled <==> IsSearchKey(key)
      ensures key.Delete? ==> lists.searchString == "" && lists.matchString == ""
      ensures key.Backspace? ==> lists.searchString == DropLast(old(lists.searchString))
      ensures key.Typed? && handled ==> lists.searchString == old(lists.searchString) + key.text
      ensures !(key.AltRight? || key.AltLeft? || (key.Typed? && handled)) ==> focusIdx == old(focusIdx)
      ensures !handled ==> unchanged(this, lists, focusW)
    {
      handled := true;
      if key.Delete? {
        ClearSearch();
      } else if IsPaneSearchKey(key) {
        SearchFocusedPane(key);
      } else if key.AltRight? || key.AltLeft? {
        var _ := FocusPaneWithMatch(key.AltRight?);
      } else if key.Backspace? {
        SearchPanes(DropLast(lists.searchString));
      } else if key.Typed? && IsText(key.text) {
        TypeAhead(key.text);
      } else {
        handled := false;
      }
    }

    /** The Delete branch of `handle_search_key`: no search string, no match string. */
    method ClearSearch()
      requires Valid()
      modifies lists`searchString, lists`matchString
      ensures Valid() && lists.searchString == "" && lists.matchString == ""
    {
      lists.searchString := "";
      lists.matchString := "";
    }

    /**
     * The Alt-Up, Alt-Down, Alt-PgUp and Alt-PgDn branches of
     * `handle_search_key`: `search_widget_up`, `_down`, `_first` or `_last`
     * on the focused child.
     */
    method SearchFocusedPane(key: Key)
      requires Valid() && IsPaneSearchKey(key)
      modifies focusW`curLine, focusW`choice, focusW`topLine
      ensures Valid()
    {
      match key {
        case AltUp => SearchWidgetUp(focusW);
        case AltDown => SearchWidgetDown(focusW);
        case AltPgUp => SearchWidgetFirst(focusW);
        case AltPgDn => SearchWidgetLast(focusW);
      }
      lists.DisplayKeepsValid();
    }

    /**
     * The Alt-Right and Alt-Left branches of `handle_search_key`: the
     * nearest pane on that side with a match, if any, becomes the focused
     * child, and the dialog scrolls to show it.
     */
    method FocusPaneWithMatch(right: bool) returns (r: Option<nat>)
      requires Valid()
      modifies this`focusIdx, this`focusW, this`childs, this`childX
      modifies Panes()`curLine, Panes()`choice, Panes()`topLine, Panes()`focus, Panes()`height
      modifies frame`x, frame`h, frame`y, frame.ctx`curX, frame.ctx`curY, frame.ctx.screen
      ensures Valid() && childs == old(childs)
      ensures r.None? ==> focusIdx == old(focusIdx)
      ensures r.Some? ==> if right then focusIdx > old(focusIdx) else focusIdx < old(focusIdx)
      ensures r.Some? ==> PaneHasHit(old(Shown(lists.boxes))[focusIdx], lists.matchString)
    {
      ghost var was := focusIdx;
      r := SearchAside(right);
      if r.Some? {
        RevealFound(was);
      }
    }

    /** `search_widgets_right()` or `search_widgets_left()`, the stack staying valid. */
    method SearchAside(right: bool) returns (r: Option<nat>)
      requires Valid()
      modifies this`focusIdx, Panes()`curLine, Panes()`choice, Panes()`topLine
      ensures lists.Valid() && 0 <= focusIdx < |lists.boxes|
      ensures r.None? ==> focusIdx == old(focusIdx)
      ensures r.Some? ==> if right then focusIdx > old(focusIdx) else focusIdx < old(focusIdx)
      ensures r.Some? ==> PaneHasHit(old(Shown(lists.boxes))[focusIdx], lists.matchString)
    {
      if right {
        r := SearchWidgetsRight();
      } else {
        r := SearchWidgetsLeft();
      }
      lists.DisplayKeepsValid();
    }
  }
}
