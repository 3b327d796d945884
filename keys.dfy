/**
 * The keys the path picker reacts to. The terminal toolkit decodes the input
 * bytes into one of these; the byte sequences themselves (fsel/picotui_keys.py
 * and the toolkit's own table) are left abstract, only their identity matters.
 */
module Keys {
  /** The modifier combination of a function key. */
  datatype Modifier = Plain | Shift | Alt | AltShift | Ctrl

  datatype Key =
    | Quit | Esc | Enter | Tab | ShiftTab
    | Up | Down | PgUp | PgDn | Left | Right | Home | End
    | Delete | Backspace | Insert | AltInsert | AltEnter | AltHome
    | AltUp | AltDown | AltPgUp | AltPgDn | AltLeft | AltRight
    | CtrlSpace | CtrlAltSpace | AltShiftSpace
    | F(n: nat, modifier: Modifier)
      /** Input bytes that are not an escape sequence nor one of the keys above: text typed into the filter. */
    | Typed(text: string)
      /** Any other key the toolkit delivers (an escape sequence or key code of its own). */
    | Other(code: nat)
}
