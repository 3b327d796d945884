/**
 * The last-choice oracle of the older file-system model (`FsModel` in
 * fsel/fsel.py): for every folder path it remembers the name chosen there
 * last, in the persistent root history (loaded from and saved to the
 * settings) or in the history of the current visit. Listing the file
 * system is left to the caller (see the older pane stack).
 */
module LegacyFsModel {
  import opened Wrappers
  import opened PyStr
  import opened LegacyModel

  /** A history: the `'/'`-joined folder path to the name chosen there (`None` for a stored null). */
  type History = map<string, Option<string>>

  /** `string_path(path)`. */
  function StringPath(path: seq<string>): string {
    Join(path, "/")
  }

  /** `storage.get(key)`: `None` for a missing key as for a stored null. */
  function Get(storage: History, key: string): (r: Option<string>)
    ensures r.Some? <==> key in storage && storage[key].Some?
    ensures r.Some? ==> r == storage[key]
  {
    if key in storage then storage[key] else None
  }

  /** Python truthiness of an optional name: `None` and `''` are false. */
  predicate Truthy(v: Option<string>) {
    v.Some? && v.value != ""
  }

  /** `visit.get(p) or root.get(p)`. */
  function ChosenName(visit: History, root: History, key: string): (r: Option<string>)
    ensures Truthy(Get(visit, key)) ==> r == Get(visit, key)
    ensures !Truthy(Get(visit, key)) ==> r == Get(root, key)
  {
    var v := Get(visit, key);
    if Truthy(v) then v else Get(root, key)
  }

  /** `recall_choice_in(storage, key, items)`: the first index of the stored name, `None` when nothing usable is stored. */
  function ChoiceIn(storage: History, key: string, items: seq<Item>): (r: Option<nat>)
    ensures r.Some? ==>
      key in storage && storage[key].Some? && r.value < |items| && ItemText(items[r.value]) == storage[key].value
    ensures key !in storage ==> r.None?
  {
    if key in storage && storage[key].Some? then IndexOfItemText(storage[key].value, items) else None
  }

  /** `recall_choice_in(visit, ...) or recall_choice_in(root, ...)`: index 0 is false, so it falls through too. */
  function Choice(visit: History, root: History, key: string, items: seq<Item>): (r: Option<nat>)
  {
    var v := ChoiceIn(visit, key, items);
    if v.Some? && v.value != 0 then v else ChoiceIn(root, key, items)
  }

  /**
   * The recalled choice is an entry that bears the name one of the two
   * histories holds for the path, the first such entry; a visit hit other
   * than index 0 wins.
   */
  lemma ChoiceNamesStoredEntry(visit: History, root: History, key: string, items: seq<Item>)
    ensures var r := Choice(visit, root, key, items);
      r.Some? ==>
        && r.value < |items|
        && ((key in visit && visit[key] == Some(ItemText(items[r.value])))
            || (key in root && root[key] == Some(ItemText(items[r.value]))))
    ensures var v := ChoiceIn(visit, key, items);
      v.Some? && v.value != 0 ==> Choice(visit, root, key, items) == v
  {
  }

  /**
   * The `or` in `recall_choice`: a visit choice at index 0 counts as no
   * choice, and the root history decides, even when it names another entry.
   */
  lemma ChoiceAtZeroFallsThrough(visit: History, root: History, key: string, items: seq<Item>)
    requires |items| > 0 && key in visit && visit[key] == Some(ItemText(items[0]))
    ensures Choice(visit, root, key, items) == ChoiceIn(root, key, items)
  {
  }

  /**
   * The same for a visit name no longer listed: the session history is
   * skipped and the root history decides.
   */
  lemma UnlistedVisitNameFallsThrough(visit: History, root: History, key: string, items: seq<Item>)
    requires key in visit && visit[key].Some?
    requires forall j :: 0 <= j < |items| ==> ItemText(items[j]) != visit[key].value
    ensures Choice(visit, root, key, items) == ChoiceIn(root, key, items)
  {
  }

  /** The two histories of the older file-system model. */
  class FsModel {
    var rootHistory: History
    var visitHistory: History

    /** A fresh model starts a visit with an empty session history. */
    constructor (history: History)
      ensures rootHistory == history && visitHistory == map[]
    {
      rootHistory := history;
      visitHistory := map[];
    }

    /** `recall_chosen_name(path)`. */
    function RecallChosenName(path: seq<string>): Option<string>
      reads this
    {
      ChosenName(visitHistory, rootHistory, StringPath(path))
    }

    /** `recall_choice(path, items)`. */
    function RecallChoice(path: seq<string>, items: seq<Item>): Option<nat>
      reads this
    {
      Choice(visitHistory, rootHistory, StringPath(path), items)
    }

    /**
     * `memorize(path, name, persistent)`: the name is stored for the path in
     * the history `persistent` chooses, overwriting what was there; the other
     * history is untouched. A non-empty name memorized for the visit is what
     * the path recalls from then on; one memorized persistently is recalled
     * unless the visit has a name of its own for the path.
     */
    method Memorize(path: seq<string>, name: string, persistent: bool)
      modifies this
      ensures persistent ==> rootHistory == old(rootHistory)[StringPath(path) := Some(name)]
                             && visitHistory == old(visitHistory)
      ensures !persistent ==> visitHistory == old(visitHistory)[StringPath(path) := Some(name)]
                              && rootHistory == old(rootHistory)
      ensures !persistent && name != "" ==> RecallChosenName(path) == Some(name)
      ensures persistent && !Truthy(Get(visitHistory, StringPath(path))) ==> RecallChosenName(path) == Some(name)
    {
      var key := StringPath(path);
      if persistent {
        rootHistory := rootHistory[key := Some(name)];
      } else {
        visitHistory := visitHistory[key := Some(name)];
      }
    }
  }
}
