/**
 * The table of fsel/exit_codes_mapping.py: which keys end the dialog, and
 * the process exit code each one yields. The base code values live in
 * fsel/exit_codes.py, which is not part of this model, so they are a
 * `Codes` record; the table is built from them exactly as the source adds
 * them up.
 */
module ExitCodesMapping {
  import opened Wrappers
  import opened Keys

  /** The base exit codes: one per dedicated key, the modifier offsets, and one per function key. */
  datatype Codes = Codes(
    delete: int, escape: int, insert: int, enter: int, backspace: int,
    ctrlSpace: int, ctrlAltSpace: int, altShiftSpace: int,
    alt: int, ctrl: int, shift: int,
    f: nat -> int)

  /**
   * `KEYS_TO_EXIT_CODES.get(key)`: the dictionary literal, one case per
   * group of entries, `None` for a key the table does not list.
   */
  function ExitCodeOf(c: Codes, k: Key): Option<int> {
    match k
    case Delete => Some(c.delete)
    case Esc => Some(c.escape)
    case Insert => Some(c.insert)
    case AltInsert => Some(c.alt + c.insert)
    case Enter => Some(c.enter)
    case AltEnter => Some(c.alt + c.enter)
    case Backspace => Some(c.backspace)
    case CtrlSpace => Some(c.ctrlSpace)
    case CtrlAltSpace => Some(c.ctrlAltSpace)
    case AltShiftSpace => Some(c.altShiftSpace)
    case F(n, Plain) => if 1 <= n <= 10 then Some(c.f(n)) else None
    case F(n, Ctrl) => if 1 <= n <= 12 then Some(c.ctrl + c.f(n)) else None
    case F(n, Shift) => if n == 3 || n == 6 || n == 10 then Some(c.shift + c.f(n)) else None
    case F(n, Alt) => if n == 3 || n == 6 then Some(c.alt + c.f(n)) else None
    case F(n, AltShift) => if n == 3 then Some(c.alt + c.shift + c.f(n)) else None
    case _ => None
  }

  /** `key in KEYS_TO_EXIT_CODES`. */
  predicate InTable(c: Codes, k: Key) {
    ExitCodeOf(c, k).Some?
  }

  /**
   * The function keys in the table: F1-F10 plain, Ctrl with F1-F12, Shift
   * with F3, F6 and F10, Alt with F3 and F6, Alt-Shift with F3 only.
   */
  predicate InFunctionKeyTable(n: nat, m: Modifier) {
    match m
    case Plain => 1 <= n <= 10
    case Ctrl => 1 <= n <= 12
    case Shift => n == 3 || n == 6 || n == 10
    case Alt => n == 3 || n == 6
    case AltShift => n == 3
  }

  /** The offset a modifier adds to a function key's code; Alt-Shift adds both. */
  function ModifierOffset(c: Codes, m: Modifier): int {
    match m
    case Plain => 0
    case Ctrl => c.ctrl
    case Shift => c.shift
    case Alt => c.alt
    case AltShift => c.alt + c.shift
  }

  /** The keys that have an exit code. */
  predicate HasExitCode(k: Key) {
    match k
    case Delete | Esc | Insert | AltInsert | Enter | AltEnter | Backspace => true
    case CtrlSpace | CtrlAltSpace | AltShiftSpace => true
    case F(n, m) => InFunctionKeyTable(n, m)
    case _ => false
  }

  /** The table's keys are exactly the ones listed above, whatever the code values. */
  lemma TableKeys(c: Codes, k: Key)
    ensures InTable(c, k) <==> HasExitCode(k)
  {
  }

  /** A function key in the table maps to its own code plus its modifiers' offsets. */
  lemma FunctionKeyCodes(c: Codes, n: nat, m: Modifier)
    requires InFunctionKeyTable(n, m)
    ensures ExitCodeOf(c, F(n, m)) == Some(ModifierOffset(c, m) + c.f(n))
  {
  }

  /** Delete, Esc, Insert, Enter and Backspace each map to their own dedicated code. */
  lemma DedicatedKeyCodes(c: Codes)
    ensures ExitCodeOf(c, Delete) == Some(c.delete)
    ensures ExitCodeOf(c, Esc) == Some(c.escape)
    ensures ExitCodeOf(c, Insert) == Some(c.insert)
    ensures ExitCodeOf(c, Enter) == Some(c.enter)
    ensures ExitCodeOf(c, Backspace) == Some(c.backspace)
  {
  }

  /** Alt-Insert and Alt-Enter add the Alt offset to the code of the key without Alt. */
  lemma AltKeyCodes(c: Codes)
    ensures ExitCodeOf(c, AltInsert).value == c.alt + ExitCodeOf(c, Insert).value
    ensures ExitCodeOf(c, AltEnter).value == c.alt + ExitCodeOf(c, Enter).value
  {
  }

  /** The keys the dialog itself handles are not in the table. */
  lemma NavigationKeysNotInTable(c: Codes, k: Key)
    requires k in {Quit, Tab, ShiftTab, Up, Down, PgUp, PgDn, Left, Right, Home, End, AltHome}
              || k in {AltUp, AltDown, AltPgUp, AltPgDn, AltLeft, AltRight} || k.Typed?
    ensures !InTable(c, k)
  {
  }
}
