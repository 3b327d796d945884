/**
 * The list of recent choices kept per root in the settings (fsel/fsel.py,
 * `field_for_recent` and `update_recents`): the last choice first, no entry
 * twice, at most `RECENT_COUNT` entries.
 */
module Recents {
  /** `RECENT_COUNT`. */
  const RECENT_COUNT: nat := 10

  /** `field_for_recent(target_is_file, target_is_executable)`: the settings field of the recent list for the kind of target. */
  function FieldForRecent(targetIsFile: bool, targetIsExecutable: bool): (r: string)
    ensures !targetIsFile ==> r == "recent-folders"
  {
    if targetIsFile then
      if targetIsExecutable then "recent-executables" else "recent-files"
    else "recent-folders"
  }

  /**
   * Each kind of target has a list of its own: two modes share a field
   * exactly when both pick folders, or both pick files of the same kind.
   */
  lemma FieldForRecentSeparates(f1: bool, x1: bool, f2: bool, x2: bool)
    ensures FieldForRecent(f1, x1) == FieldForRecent(f2, x2) <==> f1 == f2 && (f1 ==> x1 == x2)
  {
  }

  /** No entry occurs twice. */
  predicate NoDup(s: seq<string>) {
    forall i, j :: 0 <= i < j < |s| ==> s[i] != s[j]
  }

  /** The position of the first occurrence of `x`: the copy that `list.remove(x)` takes out. */
  function FirstIndex(s: seq<string>, x: string): (i: nat)
    requires x in s
    ensures i < |s| && s[i] == x && x !in s[..i]
  {
    if s[0] == x then 0
    else
      var j := FirstIndex(s[1..], x);
      assert s[..j + 1] == [s[0]] + s[1..][..j];
      j + 1
  }

  /** The position in a list of entry `k` of that list with entry `i` taken out. */
  function Skip(k: nat, i: nat): (p: nat)
    ensures p != i && (k < i ==> p == k) && (k >= i ==> p == k + 1)
  {
    if k < i then k else k + 1
  }

  /** The list with entry `i` taken out: every other entry keeps its order. */
  function CutOut(s: seq<string>, i: nat): (r: seq<string>)
    requires i < |s|
    ensures |r| == |s| - 1
    ensures forall k :: 0 <= k < |r| ==> r[k] == s[Skip(k, i)]
  {
    s[..i] + s[i + 1..]
  }

  /** Cutting out an entry after the head keeps the head in front. */
  lemma CutOutCons(s: seq<string>, j: nat)
    requires j + 1 < |s|
    ensures CutOut(s, j + 1) == [s[0]] + CutOut(s[1..], j)
  {
    assert s[..j + 1] == [s[0]] + s[1..][..j];
    assert s[j + 2..] == s[1..][j + 1..];
  }

  /** `list.remove(x)` when `x` is present: the first occurrence goes, the rest keeps its order. */
  function RemoveFirst(s: seq<string>, x: string): (r: seq<string>)
    ensures x !in s ==> r == s
    ensures x in s ==> r == CutOut(s, FirstIndex(s, x))
  {
    if |s| == 0 then []
    else if s[0] == x then s[1..]
    else if x in s[1..] then
      CutOutCons(s, FirstIndex(s[1..], x));
      [s[0]] + RemoveFirst(s[1..], x)
    else
      [s[0]] + RemoveFirst(s[1..], x)
  }

  /** Removing `x` drops one entry when present, and only that copy of `x`. */
  lemma RemoveFirstMembers(s: seq<string>, x: string)
    ensures x in s ==> |RemoveFirst(s, x)| == |s| - 1
    ensures forall y :: y in RemoveFirst(s, x) ==> y in s
    ensures forall y :: y in s && y != x ==> y in RemoveFirst(s, x)
  {
    if x in s {
      var i := FirstIndex(s, x);
      assert s == s[..i] + [x] + s[i + 1..];
    }
  }

  /** With no duplicates, removing `x` leaves no `x` and no duplicate. */
  lemma RemoveFirstNoDup(s: seq<string>, x: string)
    requires NoDup(s)
    ensures x !in RemoveFirst(s, x) && NoDup(RemoveFirst(s, x))
  {
    if x in s {
      var i := FirstIndex(s, x);
      var r := RemoveFirst(s, x);
      forall a, b | 0 <= a < b < |r|
        ensures r[a] != r[b]
      {
        assert Skip(a, i) < Skip(b, i);
      }
      forall k | 0 <= k < |r|
        ensures r[k] != x
      {
        assert Skip(k, i) != i;
      }
    }
  }

  /** The first `n` entries, or all of them when there are fewer: `del s[n:]`. */
  function Truncated(s: seq<string>, n: nat): (r: seq<string>)
    ensures |r| <= n && |r| <= |s| && r == s[..|r|]
    ensures |s| <= n ==> r == s
  {
    if |s| <= n then s else s[..n]
  }

  /**
   * `update_recents(recent, rel)` as a value: `rel` moved (or added) to the
   * front, then cut to `RECENT_COUNT`; `'.'` (the root itself) leaves the
   * list as it is.
   */
  function Updated(recent: seq<string>, rel: string): (r: seq<string>)
    ensures rel == "." ==> r == recent
    ensures rel != "." ==> 0 < |r| <= RECENT_COUNT && r[0] == rel
  {
    if rel == "." then recent
    else Truncated([rel] + RemoveFirst(recent, rel), RECENT_COUNT)
  }

  /** The list `update_recents` cuts: `rel` in front of `recent` without its first copy of `rel`. */
  lemma Moved(recent: seq<string>, rel: string)
    requires rel != "."
    ensures var l := [rel] + RemoveFirst(recent, rel);
      Updated(recent, rel) == l[..|Updated(recent, rel)|]
      && |l| == if rel in recent then |recent| else |recent| + 1
  {
    RemoveFirstMembers(recent, rel);
  }

  /** Dropping the front of a prefix of `[x] + t` gives a prefix of `t`. */
  lemma FrontDropped(x: string, t: seq<string>, n: nat)
    requires 0 < n <= |t| + 1
    ensures ([x] + t)[..n][1..] == t[..n - 1]
  {
  }

  /**
   * The entries after the front one are those of `recent`, in their order,
   * without its first copy of `rel`, cut to one less than `RECENT_COUNT`.
   */
  lemma UpdatedKeepsOrder(recent: seq<string>, rel: string)
    requires rel != "."
    ensures var r := Updated(recent, rel);
      var rest := if rel in recent then |recent| - 1 else |recent|;
      |r| - 1 == if rest < RECENT_COUNT then rest else RECENT_COUNT - 1
    ensures var r := Updated(recent, rel);
      rel !in recent ==> r[1..] == recent[..|r| - 1]
    ensures var r := Updated(recent, rel);
      rel in recent ==> r[1..] == CutOut(recent, FirstIndex(recent, rel))[..|r| - 1]
  {
    var r := Updated(recent, rel);
    Moved(recent, rel);
    FrontDropped(rel, RemoveFirst(recent, rel), |r|);
  }

  /** A list without duplicates stays without duplicates, and `rel` occurs in it once, at the front. */
  lemma UpdatedNoDup(recent: seq<string>, rel: string)
    requires NoDup(recent)
    ensures NoDup(Updated(recent, rel))
    ensures rel != "." ==> rel !in Updated(recent, rel)[1..]
  {
    if rel != "." {
      var t := RemoveFirst(recent, rel);
      var r := Updated(recent, rel);
      RemoveFirstNoDup(recent, rel);
      Moved(recent, rel);
      FrontDropped(rel, t, |r|);
      assert r[0] == rel;
      forall i, j | 0 <= i < j < |r|
        ensures r[i] != r[j]
      {
        assert r[j] == r[1..][j - 1] == t[j - 1];
        if i > 0 {
          assert r[i] == r[1..][i - 1] == t[i - 1];
        }
      }
      assert forall k :: 0 <= k < |r[1..]| ==> r[1..][k] == t[k];
    }
  }

  /** Choosing the same path twice in a row changes the list no further. */
  lemma UpdatedIdempotent(recent: seq<string>, rel: string)
    requires NoDup(recent)
    ensures Updated(Updated(recent, rel), rel) == Updated(recent, rel)
  {
    if rel != "." {
      var r := Updated(recent, rel);
      UpdatedNoDup(recent, rel);
      assert r == [rel] + r[1..];
      assert RemoveFirst(r, rel) == r[1..];
    }
  }

  /**
   * While the list has room, nothing drops out: the entries are the old
   * ones plus `rel`.
   */
  lemma UpdatedKeepsAllWithRoom(recent: seq<string>, rel: string)
    requires rel != "."
    requires |recent| < RECENT_COUNT || (rel in recent && |recent| <= RECENT_COUNT)
    ensures forall x :: x in Updated(recent, rel) <==> x == rel || x in recent
  {
    RemoveFirstMembers(recent, rel);
    Moved(recent, rel);
    var l := [rel] + RemoveFirst(recent, rel);
    assert Updated(recent, rel) == l;
    forall x | x in l
      ensures x == rel || x in recent
    {
      if x != rel {
        assert x in RemoveFirst(recent, rel);
      }
    }
  }

  /** The recent list of one root and one kind of target, updated in place. */
  class RecentList {
    var names: seq<string>

    constructor (initial: seq<string>)
      ensures names == initial
    {
      names := initial;
    }

    /** `update_recents(recent, rel_path_from_root)`. */
    method UpdateRecents(rel: string)
      modifies this
      ensures names == Updated(old(names), rel)
    {
      if rel != "." {
        if rel in names {
          names := RemoveFirst(names, rel);
        }
        names := [rel] + names;
        if |names| > RECENT_COUNT {
          names := names[..RECENT_COUNT];
        }
      }
    }
  }
}
