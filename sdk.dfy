/**
 * The library entry points of fsel/sdk.py: how the dialog's loop result
 * becomes an exit code and a path, path joining, and defaulting a settings
 * field. The terminal set-up and tear-down around the dialog is not modelled.
 */
module Sdk {
  import opened Wrappers
  import opened Keys
  import opened ExitCodesMapping

  /** What the dialog's loop returns: the toolkit's OK or cancel action, or a key that ended it. */
  datatype LoopResult = ActionOk | ActionCancel | KeyResult(key: Key)

  /** What `run_dialog` returns: an exit code (`None` for a key without one) and the chosen path (`None` on cancel). */
  datatype Outcome = Outcome(code: Option<int>, path: Option<seq<string>>)

  /** The result mapping of `run_dialog`, given the dialog's `items_path()`. */
  function RunDialogResult(c: Codes, res: LoopResult, itemsPath: seq<string>): (r: Outcome)
    ensures r.path.None? <==> res.ActionCancel?
    ensures r.path.Some? ==> r.path.value == itemsPath
    ensures r.code.None? <==> res.KeyResult? && !HasExitCode(res.key)
    ensures res.ActionOk? ==> r.code == Some(c.enter)
    ensures res.ActionCancel? ==> r.code == Some(c.escape)
    ensures res.KeyResult? ==> r.code == ExitCodeOf(c, res.key)
  {
    TableKeys(c, if res.KeyResult? then res.key else Enter);
    var exitCode := if res.KeyResult? then ExitCodeOf(c, res.key) else None;
    if res.ActionOk? then Outcome(Some(c.enter), Some(itemsPath))
    else if res.ActionCancel? then Outcome(Some(c.escape), None)
    else Outcome(exitCode, Some(itemsPath))
  }

  /**
   * Ending the dialog with the Enter key, were it passed through, would be
   * indistinguishable from the OK action; ending it with Esc gives the
   * cancel code but, unlike the cancel action, still a path.
   */
  lemma KeyAndActionAgree(c: Codes, itemsPath: seq<string>)
    ensures RunDialogResult(c, KeyResult(Enter), itemsPath) == RunDialogResult(c, ActionOk, itemsPath)
    ensures RunDialogResult(c, KeyResult(Esc), itemsPath).code == RunDialogResult(c, ActionCancel, itemsPath).code
    ensures RunDialogResult(c, KeyResult(Esc), itemsPath).path == Some(itemsPath)
  {
  }

  /** `full_path(root, rel_path)`: the relative path under `root`, with one separator unless `root` is `/`. */
  function FullPath(root: string, rel: string): (r: string)
    ensures |r| == |root| + |rel| + (if root == "/" then 0 else 1)
    ensures r[..|root|] == root && r[|r| - |rel|..] == rel
    ensures root != "/" ==> r[|root|] == '/'
  {
    (if root != "/" then root + "/" else "/") + rel
  }

  /** Joining under `/` and joining under `""` give the same absolute path. */
  lemma FullPathUnderRoot(rel: string)
    ensures FullPath("/", rel) == FullPath("", rel) == "/" + rel
  {
  }

  /**
   * A dictionary whose values may be `None`; `entries` maps each key to its
   * value, `None` standing for a stored Python `None`.
   */
  class Dict<V> {
    var entries: map<string, Option<V>>

    constructor (initial: map<string, Option<V>>)
      ensures entries == initial
    {
      entries := initial;
    }

    /** `d.get(name)`: the stored value, `None` when the key is missing or holds `None`. */
    function Get(name: string): (r: Option<V>)
      reads this
      ensures r.Some? <==> name in entries && entries[name].Some?
      ensures r.Some? ==> entries[name] == r
    {
      if name in entries then entries[name] else None
    }

    /**
     * `field_or_else(d, name, default)`: an existing non-`None` value is
     * returned and the dictionary left alone; otherwise `default` is stored
     * under `name` and returned. Either way `name` now holds the result.
     */
    method FieldOrElse(name: string, default: Option<V>) returns (r: Option<V>)
      modifies this
      ensures old(Get(name)).Some? ==> r == old(Get(name)) && entries == old(entries)
      ensures old(Get(name)).None? ==> r == default && entries == old(entries)[name := default]
      ensures name in entries && entries[name] == r
    {
      r := Get(name);
      if r.None? {
        r := default;
        entries := entries[name := r];
      }
    }
  }

  /** Defaulting twice is defaulting once: the second call finds the stored value (when it is not `None`). */
  method FieldOrElseTwice<V>(d: Dict<V>, name: string, first: Option<V>, second: Option<V>) returns (a: Option<V>, b: Option<V>)
    modifies d
    ensures a.Some? ==> b == a
    ensures name in d.entries && d.entries == old(d.entries)[name := d.entries[name]]
  {
    a := d.FieldOrElse(name, first);
    b := d.FieldOrElse(name, second);
  }
}
