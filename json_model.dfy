/**
 * The tree model of fsel/json_model.py (also the `JsonModel` of
 * fsel/fsel.py): a parsed JSON document browsed like a folder tree, where
 * an object's keys and an array's indices are the entries, and a path
 * names a node by one segment per level.
 */
module JsonModel {
  import opened Wrappers
  import opened PyStr
  import opened LegacyModel

  /**
   * A parsed JSON value. An object keeps its members in document order.
   * `JNull` is also Python's `None`.
   */
  datatype Json =
    | JNull
    | JBool(b: bool)
    | JNum(n: int)
    | JStr(s: string)
    | JList(elems: seq<Json>)
    | JDict(fields: seq<(string, Json)>)

  /** A Python dict has no key twice (JSON parsing keeps only the last duplicate). */
  predicate DistinctKeys(fields: seq<(string, Json)>) {
    forall i, k :: 0 <= i < k < |fields| ==> fields[i].0 != fields[k].0
  }

  /** `j[s]` on a dict: the value under `s`, `None` where Python raises `KeyError`. */
  function Lookup(fields: seq<(string, Json)>, key: string): (r: Option<Json>)
    ensures r.None? <==> forall i :: 0 <= i < |fields| ==> fields[i].0 != key
  {
    if |fields| == 0 then None
    else if fields[0].0 == key then Some(fields[0].1)
    else Lookup(fields[1..], key)
  }

  /** With distinct keys, the `i`-th member is what its key looks up. */
  lemma {:induction false} LookupFindsMember(fields: seq<(string, Json)>, i: nat)
    requires DistinctKeys(fields) && i < |fields|
    ensures Lookup(fields, fields[i].0) == Some(fields[i].1)
  {
    if i > 0 {
      assert fields[0].0 != fields[i].0;
      assert DistinctKeys(fields[1..]) by {
        forall a, b | 0 <= a < b < |fields[1..]|
          ensures fields[1..][a].0 != fields[1..][b].0
        {
          assert fields[1..][a] == fields[a + 1] && fields[1..][b] == fields[b + 1];
        }
      }
      LookupFindsMember(fields[1..], i - 1);
    }
  }

  /**
   * `resolve(j, s)`: a dict by key, a list by `int(s)` (negative indices
   * counting from the end, as Python's do), and Python's `None` for any
   * other value. `None` here stands for the exception Python raises: a
   * missing key, an index out of range, a segment that is not an integer.
   */
  function Resolve(j: Json, s: string): (r: Option<Json>)
    ensures j.JDict? ==> r == Lookup(j.fields, s)
    ensures !j.JDict? && !j.JList? ==> r == Some(JNull)
  {
    match j
    case JDict(fields) => Lookup(fields, s)
    case JList(elems) =>
      var i := ParseInt(s);
      if i.Some? && -|elems| <= i.value < |elems| then
        Some(elems[if i.value < 0 then i.value + |elems| else i.value])
      else None
    case _ => Some(JNull)
  }

  /** The entries listed for a node: a dict's keys in order, a list's indices `'0'`..`'n-1'`, nothing for a scalar. */
  function Children(j: Json): (r: seq<Item>)
    ensures j.JDict? ==> |r| == |j.fields| && forall i :: 0 <= i < |r| ==> r[i] == (j.fields[i].0, false)
    ensures j.JList? ==> |r| == |j.elems| && forall i :: 0 <= i < |r| ==> r[i] == (NatToString(i), false)
    ensures !j.JDict? && !j.JList? ==> r == []
  {
    match j
    case JDict(fields) => seq(|fields|, i requires 0 <= i < |fields| => (fields[i].0, false))
    case JList(elems) => seq(|elems|, (i: int) requires 0 <= i => (NatToString(i), false))
    case _ => []
  }

  /** `list_items_of(j, path)`: the entries of the node `path` leads to; `None` where Python raises. */
  function ListItemsOf(j: Json, path: seq<string>): (r: Option<seq<Item>>)
    decreases |path|
  {
    if |path| == 0 then Some(Children(j))
    else
      match Resolve(j, path[0])
      case None => None
      case Some(child) => ListItemsOf(child, path[1..])
  }

  /** The node a path leads to, one `resolve` per segment. */
  function Walk(j: Json, path: seq<string>): Option<Json>
    decreases |path|
  {
    if |path| == 0 then Some(j)
    else
      match Resolve(j, path[0])
      case None => None
      case Some(child) => Walk(child, path[1..])
  }

  /** Every listed entry names its own child: resolving it gives that member or element. */
  lemma ListedEntriesResolve(j: Json, i: nat)
    requires j.JDict? ==> DistinctKeys(j.fields)
    requires i < |Children(j)|
    ensures j.JDict? ==> Resolve(j, Children(j)[i].0) == Some(j.fields[i].1)
    ensures j.JList? ==> Resolve(j, Children(j)[i].0) == Some(j.elems[i])
  {
    if j.JDict? {
      LookupFindsMember(j.fields, i);
    } else if j.JList? {
      IntOfStr(i);
    }
  }

  /** No entry of this model is ever a leaf, whatever the node. */
  lemma NoEntryIsLeaf(j: Json, path: seq<string>)
    ensures ListItemsOf(j, path).Some? ==> forall e :: e in ListItemsOf(j, path).value ==> !IsLeaf(e)
  {
    if ListItemsOf(j, path).Some? {
      ListItemsOfIsChildrenOfWalk(j, path);
    }
  }

  /** Listing a path lists the children of the node the path leads to, and fails exactly when the walk does. */
  lemma {:induction false} ListItemsOfIsChildrenOfWalk(j: Json, path: seq<string>)
    ensures ListItemsOf(j, path).None? <==> Walk(j, path).None?
    ensures Walk(j, path).Some? ==> ListItemsOf(j, path) == Some(Children(Walk(j, path).value))
    decreases |path|
  {
    if |path| > 0 {
      match Resolve(j, path[0])
      case None =>
      case Some(child) => ListItemsOfIsChildrenOfWalk(child, path[1..]);
    }
  }

  /** Walking a concatenated path is walking its first part, then the rest from there. */
  lemma {:induction false} WalkAppend(j: Json, p: seq<string>, q: seq<string>)
    ensures Walk(j, p + q) == if Walk(j, p).Some? then Walk(Walk(j, p).value, q) else None
    decreases |p|
  {
    if |p| > 0 {
      assert (p + q)[0] == p[0] && (p + q)[1..] == p[1..] + q;
      match Resolve(j, p[0])
      case None =>
      case Some(child) => WalkAppend(child, p[1..], q);
    } else {
      assert p + q == q;
    }
  }

  /**
   * Below a scalar every path lists nothing and never fails: Python's
   * `resolve` falls through to `None`, which is itself a scalar.
   */
  lemma {:induction false} ScalarListsNothing(j: Json, path: seq<string>)
    requires !j.JDict? && !j.JList?
    ensures ListItemsOf(j, path) == Some([])
    decreases |path|
  {
    if |path| > 0 {
      ScalarListsNothing(JNull, path[1..]);
    }
  }

  /** A list segment may count from the end: `'-1'` names the last element. */
  lemma LastElementByNegativeIndex(elems: seq<Json>)
    requires |elems| > 0
    ensures Resolve(JList(elems), "-1") == Some(elems[|elems| - 1])
  {
    assert AllDigits("1") && DigitsValue("1") == 1 by {
      assert "1"[..0] == "";
    }
    assert "-1"[1..] == "1";
  }
}
