# fsel path picker — a Dafny model

fsel is a terminal path picker. It opens below the shell prompt and shows a
row of panes. The first pane lists a root folder, and each further pane
lists the entry selected in the pane before it. Arrow keys move the focus
between panes and the cursor within one. Typing searches every pane for the
match string. Enter, Delete, Insert, the function keys and a few other keys
end the dialog, and each yields its own exit code. The picker remembers
which entries were chosen and how often, and opens each folder on the entry
used most.

This project models that core:

- **Pane stack** (`ListBoxes`, fsel/lib/list_boxes.py): building the panes
  from an initial path, expanding along the oracle's recalled choices,
  truncating and re-expanding when a selection changes, and the
  incremental search across panes.
- **Frequency oracle** (`PathOracle`, fsel/lib/path_oracle.py): usage
  statistics as a trie of counters; `memorize`, `recall`, `most_frequent`
  and the counter increments.
- **Dialog** (`SelectPathDialog`, fsel/lib/select_path_dialog.py):
  horizontal layout and scrolling, focus movement, commit, and the search
  keys. Its height negotiation is `DynamicDialog`.
- **Pane** (`CustomListBox`): the cursor, the listing and its filter.
- **Clipping paint context** (`PaintContext`): modelled over a trace of
  terminal operations, with a cell semantics of that trace.
- **Entry models**: `ListItemInfo`, `ItemModel`, `LegacyModel`,
  `LegacyFsModel` and `JsonModel`.
- **Styling**: `Style`, `TuiRichText`, `RichText` (SGR rendering and
  `render_substr`), `StyleCombiner` and `Palette`.
- **Exit codes** (`ExitCodesMapping`).
- **Library entry points** (`Sdk`) and the recent-choices list (`Recents`).
- **Older pane stack** (`LegacyListBoxes`) of fsel/fsel.py.
- **Python primitives**: `Bits` and `PyStr` hold the few pieces of Python
  semantics the rest relies on. Examples are `&` and `|` on unbounded
  integers, `str.find`, slicing, `str(n)` and `int(s)`.

Stateful source classes are Dafny classes with `modifies` frames:
- the panes;
- the pane stack;
- the oracle;
- the dialog;
- the paint context.

Each of their methods is specified by functions of the old state, and those
functions' properties are proved as lemmas. Pure code is datatypes,
functions and lemmas.

## Model

| member | source | states |
|---|---|---|
| Recents.FieldForRecent | fsel/fsel.py:810-814 | folders use `recent-folders`; `FieldForRecentSeparates` gives the rest |
| Recents.FieldForRecentSeparates | fsel/fsel.py:810-814 | two target kinds share a settings field exactly when both are folders, or both are files with the same executable flag |
| Recents.FirstIndex | fsel/fsel.py:819-820 | the position of the first `x`: it holds `x` and no earlier entry does |
| Recents.CutOut | fsel/fsel.py:819-820 | the list with one entry taken out: one entry shorter, every other entry in its old order |
| Recents.RemoveFirst | fsel/fsel.py:819-820 | `list.remove`: unchanged when `x` is absent; otherwise the entry at `FirstIndex` (the first `x`) is cut out (`CutOut`) |
| Recents.RemoveFirstMembers | fsel/fsel.py:819-820 | a present `x` leaves the list one entry shorter; no entry is new, and every entry other than `x` is kept |
| Recents.RemoveFirstNoDup | fsel/fsel.py:819-820 | on a list without duplicates, removal leaves no `x` and no duplicate |
| Recents.Truncated | fsel/fsel.py:822 | `del recent[n:]`: a prefix of at most `n` entries, the whole list when it is short enough |
| Recents.Updated | fsel/fsel.py:817-822 | `.` leaves the list alone; any other path ends up first, in a list of 1 to `RECENT_COUNT` entries |
| Recents.Moved | fsel/fsel.py:819-822 | the result is a prefix of the path followed by the list without its first copy of the path; that list is as long as the old one when the path was in it, one longer otherwise |
| Recents.UpdatedKeepsOrder | fsel/fsel.py:817-822 | for any path but `.`: after the path come as many old entries as fit (`RECENT_COUNT - 1` at most), namely the old list with the first occurrence of the path cut out, in the old order, cut to that length |
| Recents.UpdatedNoDup | fsel/fsel.py:817-822 | a list without duplicates stays so, and the path occurs only at the front |
| Recents.UpdatedIdempotent | fsel/fsel.py:817-822 | choosing the same path twice in a row is choosing it once |
| Recents.UpdatedKeepsAllWithRoom | fsel/fsel.py:817-822 | while the list has room no entry drops out: the entries are the old ones plus the path |
| Recents.RecentList.UpdateRecents | fsel/fsel.py:817-822 | the in-place list update leaves exactly `Updated(old list, path)` |
| Sdk.RunDialogResult | fsel/sdk.py:29-36 | OK gives the Enter code and the path, cancel gives the Escape code and no path, a key gives its table code (none for a key outside the table) and the path; only the item names of `items_path()` are modelled |
| Sdk.KeyAndActionAgree | fsel/sdk.py:29-36 | a dialog ended by Enter, were the key passed through, yields what OK yields; Esc yields the cancel code but with a path |
| Sdk.FullPath | fsel/sdk.py:47-49 | the result is the root, one `/` unless the root is `/`, then the relative path |
| Sdk.FullPathUnderRoot | fsel/fsel.py:705-707 | joining under `/` and under the empty root both give `/` plus the relative path |
| Sdk.Dict.Get | fsel/sdk.py:53 | `d.get(name)` is a value exactly when the key holds a non-`None` value |
| Sdk.Dict.FieldOrElse | fsel/sdk.py:52-56 | an existing non-`None` value is returned and the dictionary is unchanged; otherwise the default is stored under the name and returned |
| Sdk.FieldOrElseTwice | fsel/fsel.py:747-751 | a second call after the first returns what the first did (when that is not `None`) and only the one key changes |
| ExitCodesMapping.ExitCodeOf | fsel/exit_codes_mapping.py:8-59 | `KEYS_TO_EXIT_CODES.get(key)`; what it maps each key to is stated by `TableKeys`, `FunctionKeyCodes`, `DedicatedKeyCodes`, `AltKeyCodes` and `NavigationKeysNotInTable` below |
| ExitCodesMapping.TableKeys | fsel/exit_codes_mapping.py:8-59 | a key has an exit code exactly when it is one of the listed keys, whatever the base code values |
| ExitCodesMapping.FunctionKeyCodes | fsel/exit_codes_mapping.py:21-58 | each listed function key maps to its F-key code plus the offsets of its modifiers (Ctrl, Shift, Alt, Alt plus Shift) |
| ExitCodesMapping.DedicatedKeyCodes | fsel/exit_codes_mapping.py:9-15 | Delete, Esc, Insert, Enter and Backspace map to their own codes |
| ExitCodesMapping.AltKeyCodes | fsel/exit_codes_mapping.py:12-14 | Alt-Insert and Alt-Enter add the Alt offset to the plain key's code |
| ExitCodesMapping.NavigationKeysNotInTable | fsel/exit_codes_mapping.py:8-59 | the keys the dialog handles itself (arrows, paging, Tab, Shift-Tab, Alt-Home, typed text) have no exit code |
| ItemModel.ToListItems | fsel/item_model.py:8-9 | the tuples correspond, one for one, to records |
| ItemModel.ItemText | fsel/item_model.py:20-25 | the text of a tuple entry; `ItemQueriesAgree` states that it is the record model's text of the same entry |
| ItemModel.ItemTextLength | fsel/item_model.py:27-31 | the display length of a tuple entry; `ItemQueriesAgree` states it: the name's length, plus one and the description's length when there is one |
| ItemModel.MaxItemTextLength | fsel/item_model.py:17-18 | `max` of the display lengths; `MaxItemTextLengthAgrees` states that it bounds every entry and equals the record model's maximum |
| ItemModel.IndexOfItemFileName | fsel/item_model.py:36-39 | the first index whose name matches; `IndexOfItemFileNameAgrees` states that it is the record model's index |
| ItemModel.ItemQueriesAgree | fsel/item_model.py:11-31 | leaf is bit 15 of `item[1]` clear, italic is bit 16 set; text and display length (name, plus one and the description when there is one) agree with the record model |
| ItemModel.MaxItemTextLengthAgrees | fsel/item_model.py:17-18 | the maximum display length over tuples bounds every entry and equals the record model's |
| ItemModel.IndexOfItemFileNameAgrees | fsel/item_model.py:36-39 | the first index with the name is the one the record model finds |
| ListItemInfo.FlagBits | fsel/lib/list_item_info_service.py:9-11 | the three flags are bits 15, 16 and 17 |
| ListItemInfo.IsLeafIff | fsel/lib/list_item_info_service.py:16-17 | a leaf exactly when bit 15 is clear |
| ListItemInfo.CosmeticFlagsIff | fsel/lib/list_item_info_service.py:19-23 | italic exactly when bit 16 is set, strike-through exactly when bit 17 is set |
| ListItemInfo.ItemText | fsel/lib/list_item_info_service.py:28-32 | the name, or the name, a space and the description in colour; `ItemTextShape` states its shape and its relation to `ItemTextLength` |
| ListItemInfo.ItemTextLength | fsel/lib/list_item_info_service.py:44-48 | the length of the name, plus one and the description's length when there is a description |
| ListItemInfo.ItemTextShape | fsel/lib/list_item_info_service.py:28-32 | the text is the name without a description; with one it starts with the name and a space and is longer than the counted length |
| ListItemInfo.MaxItemTextLength | fsel/lib/list_item_info_service.py:25-26 | at least every entry's display length, and equal to one of them |
| ListItemInfo.ItemRichText | fsel/lib/list_item_info_service.py:34-41 | one plain span for the name; with a description three spans: name, a plain space, the description in yellow |
| ListItemInfo.IndexOfItemFileName | fsel/lib/list_item_info_service.py:53-56 | the smallest index whose name matches, `None` exactly when no entry has the name |
| LegacyModel.MaxItemTextLength | fsel/fsel.py:213-214 | at least every name's length, and equal to one of them |
| LegacyModel.IndexOfItemText | fsel/fsel.py:219-222 | the smallest index whose name matches, `None` when no entry has it |
| LegacyModel.ToItems | fsel/fsel.py:209-217 | the older entries correspond, one for one, to tuples of the newer model |
| LegacyModel.EntryAgrees | fsel/fsel.py:210-217 | leaf test, name and display length agree with fsel/item_model.py |
| LegacyModel.IndexOfAgrees | fsel/fsel.py:219-222 | name lookup finds the same index as fsel/item_model.py |
| LegacyFsModel.Get | fsel/fsel.py:165-166 | `dict.get`: a value exactly when the key holds a non-`None` one |
| LegacyFsModel.ChosenName | fsel/fsel.py:163-166 | the visit entry when it is truthy, otherwise the root entry |
| LegacyFsModel.ChoiceIn | fsel/fsel.py:173-178 | a result is the index of the first entry named as the stored name |
| LegacyFsModel.Choice | fsel/fsel.py:168-171 | `recall_choice_in(visit) or recall_choice_in(root)`; `ChoiceNamesStoredEntry`, `ChoiceAtZeroFallsThrough` and `UnlistedVisitNameFallsThrough` state what it recalls |
| LegacyFsModel.ChoiceNamesStoredEntry | fsel/fsel.py:168-178 | a recalled index is in range and names the entry stored in the visit or the root history |
| LegacyFsModel.ChoiceAtZeroFallsThrough | fsel/fsel.py:170-171 | a visit hit at index 0 is falsy, so the root history decides |
| LegacyFsModel.UnlistedVisitNameFallsThrough | fsel/fsel.py:170-171 | a visit name that is not listed falls through to the root history |
| LegacyFsModel.FsModel.Memorize | fsel/fsel.py:159-161 | the chosen history gets the name under the joined path, the other is unchanged; a session name is then recalled, a persistent one when no truthy session entry hides it |
| LegacyFsModel.FsModel.RecallChosenName | fsel/fsel.py:163-166 | `ChosenName` on the two histories at the joined path; `Memorize` states what it recalls after a name is stored |
| LegacyFsModel.FsModel.RecallChoice | fsel/fsel.py:168-171 | `Choice` on the two histories at the joined path; `ChoiceNamesStoredEntry` states that a recalled index names the stored entry |
| JsonModel.Lookup | fsel/json_model.py:24 | `j[s]` on a dict: `None` exactly when no key matches |
| JsonModel.LookupFindsMember | fsel/json_model.py:24 | with distinct keys, looking up a listed key finds its value |
| JsonModel.Resolve | fsel/json_model.py:22-26 | a dict by key, a scalar gives Python's `None` (JSON null); a list by the integer index (in `ListedEntriesResolve`, `LastElementByNegativeIndex`) |
| JsonModel.Children | fsel/json_model.py:12-18 | a dict lists its keys in order, a list `'0'`..`'n-1'`, each paired with false; a scalar lists nothing |
| JsonModel.ListedEntriesResolve | fsel/json_model.py:12-26 | each listed entry resolves back to its child |
| JsonModel.NoEntryIsLeaf | fsel/json_model.py:14-16 | every listed entry is marked as not a leaf |
| JsonModel.ListItemsOf | fsel/json_model.py:11-20 | `list_items_of`, `None` where Python raises; `ListItemsOfIsChildrenOfWalk` and `NoEntryIsLeaf` state what it lists |
| JsonModel.ListItemsOfIsChildrenOfWalk | fsel/json_model.py:11-20 | listing at a path fails exactly when walking the path fails, and is otherwise the children of the node reached |
| JsonModel.WalkAppend | fsel/json_model.py:19-20 | walking `p + q` is walking `p` and then `q` |
| JsonModel.ScalarListsNothing | fsel/json_model.py:17-20 | below a scalar every path lists nothing |
| JsonModel.LastElementByNegativeIndex | fsel/json_model.py:26 | `-1` resolves to a list's last element, as Python's negative index does |
| Style.Style.WithAttr | fsel/lib/tui/style.py:11-16 | a new style with the given attribute word and the receiver's colours; the receiver, a value, is unchanged |
| Style.WithAttrFlagSetsBits | fsel/lib/tui/style.py:18-19 | after adding a flag, a bit is set exactly when it was set before or is set in the flag (`attr \| flag`) |
| Style.WithAttrFlagIdempotent | fsel/lib/rich_text.py:21-22 | adding the same flag twice is adding it once |
| Style.WithAttrFlagCommutes | fsel/lib/rich_text.py:21-22 | adding two flags in either order gives the same style |
| TuiRichText.RichTextLength | fsel/lib/tui/rich_text.py:12-14 | the summed span lengths; `PlainTextHasRichTextLength`, `RichTextAdditive` and `StylesIgnored` state its properties |
| TuiRichText.RichTextToPlain | fsel/lib/tui/rich_text.py:17-19 | the joined span texts; `PlainTextHasRichTextLength`, `RichTextAdditive` and `StylesIgnored` state its properties |
| TuiRichText.PlainTextHasRichTextLength | fsel/lib/tui/rich_text.py:12-19 | the plain text is as long as the rich text's visible length |
| TuiRichText.RichTextAdditive | fsel/lib/tui/rich_text.py:12-19 | length and plain text are additive over concatenated span lists |
| TuiRichText.StylesIgnored | fsel/lib/tui/rich_text.py:12-19 | restyling every span changes neither the length nor the plain text |
| RichText.Style.constructor | fsel/rich_text.py:10-14 | the dataclass fields as given |
| RichText.Style.WithAttr | fsel/rich_text.py:16-18 | overwrites the receiver's attribute word, keeps its colours, and returns the receiver itself |
| RichText.WrapAround | fsel/rich_text.py:42-51 | wrapping `o + x + c` puts the on-code before `o` and the off-code after `c` |
| RichText.RenderStyled | fsel/rich_text.py:40-52 | `render_styled`; `RenderStyledNests` and `RenderStyledPlain` state the text it produces |
| RichText.RenderStyledNests | fsel/rich_text.py:40-52 | the rendered text is the present on-codes (underline outermost, foreground innermost), the text, then the matching off-codes in reverse order |
| RichText.RenderStyledPlain | fsel/rich_text.py:40-52 | no attributes and no colours leave the text unchanged |
| RichText.RenderSpans | fsel/rich_text.py:22-35 | the loop ends with the text and column of `RenderLoop` |
| RichText.RenderSpan | fsel/rich_text.py:25-35 | a span that starts at or after `end`, once the spans have reached `start`, stops the loop with the text and column unchanged; any other span moves the loop to the next span with its end as the column, exactly as `RenderLoop` continues |
| RichText.RenderSubstr | fsel/rich_text.py:21-37 | the rendered overlap of every span with `[start, end)`, in order (`Pieces`), followed by spaces only |
| RichText.RenderLoopStep | fsel/rich_text.py:25-35 | one turn: stop at a span that starts at or after `end` once `start` is passed, else append the rendered overlap (or nothing before `start`) and go on |
| RichText.RenderLoopEnd | fsel/rich_text.py:37 | with no spans left the loop yields what it has rendered and the column reached |
| RichText.PiecesPastEnd | fsel/rich_text.py:27-29 | spans starting at or after `end` contribute nothing, so the early exit loses nothing |
| RichText.RenderLoopIsPieces | fsel/rich_text.py:25-35 | the loop renders exactly each span's contribution, whatever the styles |
| RichText.RenderSubstrPlain | fsel/rich_text.py:21-37 | with plain spans and `0 <= start <= end`, the result is the spans' text padded with spaces, cut to `[start, end)`, and has length `end - start` |
| RichText.RenderLoopPlain | fsel/rich_text.py:25-35 | with plain spans the loop yields the text cut to `[start, end)` and stops at the end of the text or past `end` |
| RichText.OverlapIsCut | fsel/rich_text.py:31-33 | a span's overlap is its text cut at the clamped offsets of `start` and `end` |
| RichText.StylerKeepsPlain | fsel/rich_text.py:40-52 | rendering in the plain style changes nothing |
| StyleCombiner.SameDirectoryFlag | fsel/lib/style_combiner.py:20-26 | both item models use the same directory flag |
| StyleCombiner.GetPalette | fsel/lib/style_combiner.py:16-31 | a row of three colours: a leaf's foreground is gray (black when highlighted in the focused list), a sticky directory's green, a set-user-id one's RGB red, per the category chain |
| StyleCombiner.StyleCombiner.constructor | fsel/lib/style_combiner.py:13-14 | the palette row is chosen once, from the attributes and the focus |
| StyleCombiner.StyleCombiner.StyleFor | fsel/lib/style_combiner.py:36-41 | the attribute bits are the style's and the base's together; an explicit colour is kept and a missing one is the row's regular foreground or background |
| StyleCombiner.StyleCombiner.MatchStyleFor | fsel/lib/style_combiner.py:33-41 | every bit of the emphasised-background mask is set; the result's bits are exactly the span's and the mask's; the span's own colours are kept and a missing foreground or background comes from the palette row |
| StyleCombiner.StyleCombiner.StyleForIdempotent | fsel/lib/style_combiner.py:36-41 | combining an already combined style again changes nothing |
| Palette.CategoryByBits | fsel/lib/palette.py:10-19 | a non-directory is a leaf whatever its permission bits; for a directory the sticky bit wins over set-group-id, which wins over set-user-id, else a plain folder |
| Palette.RowIndex | fsel/lib/palette.py:21 | a row in 0..3 whose halves are the list focus and the entry focus |
| Palette.RowIndexInjective | fsel/lib/palette.py:21 | different focus combinations give different rows |
| Palette.PaletteFor | fsel/lib/palette.py:7-21 | the row of the category's table, the category decided by the directory bit and then the sticky, set-group-id and set-user-id bits in that order |
| Palette.LeafIgnoresPermissionBits | fsel/lib/palette.py:18-19 | two non-directories get the same colours whatever their other bits |
| Palette.ColorsTablesRows | fsel/colors.py:21-74 | with the program's tables every row has three colours, the background follows the focus alone, matches are bright red (RGB for set-user-id directories) and only a highlighted leaf in the focused list is written in black |
| CustomListBox.Kept | fsel/lib/custom_list_box.py:160-171 | the entries the search keeps; `KeptMembers`, `KeptAppend` and `KeptEverythingForEmpty` state which, and in what order |
| CustomListBox.NewCurrentLine | fsel/lib/custom_list_box.py:165-168 | where the search puts the cursor; `CursorFollowsEntry` states that it is the current entry's position in the kept list |
| CustomListBox.KeptMembers | fsel/lib/custom_list_box.py:160-171 | an entry is in the narrowed content exactly when it is listed and its name contains the text or it is the current entry |
| CustomListBox.KeptAppend | fsel/lib/custom_list_box.py:160-171 | narrowing keeps the order: narrowing `a + b` is narrowing `a`, then `b` |
| CustomListBox.KeptEverythingForEmpty | fsel/lib/custom_list_box.py:154-173 | the empty text keeps every entry |
| CustomListBox.CursorFollowsEntry | fsel/lib/custom_list_box.py:156-169 | when the current entry is listed, the new cursor line is in range and lands on that entry |
| CustomListBox.ScrolledTop | fsel/lib/custom_list_box.py:29-36 | never negative; a cursor above the window becomes the first row; inside the window, or exactly one row below it, nothing moves; further below, the cursor becomes the last of `height` rows |
| CustomListBox.CursorNearWindow | fsel/lib/custom_list_box.py:29-36 | afterwards the cursor is at most `height` rows below the first visible row |
| CustomListBox.CursorJustBelowStaysHidden | fsel/lib/custom_list_box.py:30-32 | a cursor at `top + height` does not scroll and stays just outside the window |
| CustomListBox.ListBox.constructor | fsel/lib/custom_list_box.py:18-24 | the pane shows all its entries, cursor, choice and first row at 0, not focused |
| CustomListBox.ListBox.MakeCurLineVisible | fsel/lib/custom_list_box.py:29-36 | the first visible row becomes `ScrolledTop` of the old one, the cursor and the height |
| CustomListBox.ListBox.Search | fsel/lib/custom_list_box.py:154-173 | the content is the narrowed full listing (`Kept`), the new cursor line is where the current entry lands, and `found` holds exactly when some entry's name contains the text; the pane is unchanged |
| CustomListBox.ListBox.SetItems | fsel/lib/list_boxes.py:35 | the pane now shows exactly the given entries |
| CustomListBox.ListBox.Narrow | fsel/lib/list_boxes.py:33-37 | the pane shows its narrowed full listing and the same entry stays selected |
| DynamicDialog.Newlines | fsel/lib/dynamic_dialog.py:21-22 | one write per row of overshoot |
| DynamicDialog.NewlinesAreCrLf | fsel/lib/dynamic_dialog.py:21-22 | each of those writes is CR LF |
| DynamicDialog.ShrinkBlanksReleasedRows | fsel/lib/dynamic_dialog.py:15-16 | the rows given up, from `y + h` to `y + oldH`, are blanked inside the clip, and no other cell changes |
| DynamicDialog.DynamicDialog.constructor | fsel/lib/dynamic_dialog.py:8-10 | position, size and screen height as given |
| DynamicDialog.DynamicDialog.RequestHeight | fsel/lib/dynamic_dialog.py:12-23 | the height is the smaller of the need and the screen; the dialog moves up by exactly its overshoot, so it ends above the bottom, and does not move when it fits; the output is the erase of the released rows at the old `y`, then the scroll |
| DynamicDialog.DynamicDialog.ShrinkTo | fsel/lib/dynamic_dialog.py:13-16 | the new height, and an erase only when it shrank |
| DynamicDialog.DynamicDialog.ScrollIntoView | fsel/lib/dynamic_dialog.py:18-23 | the dialog moves up by its overshoot, with a move to the bottom line and that many line feeds |
| DynamicDialog.DynamicDialog.ScrollUp | fsel/lib/dynamic_dialog.py:20-23 | a move to the bottom line, `overshoot` CR LF writes, and `y` less by `overshoot` |
| PaintContext.Screen.constructor | fsel/lib/paint_context.py:3 | the terminal starts with nothing sent |
| PaintContext.Screen.Goto | fsel/lib/paint_context.py:18 | `Screen.goto` appends one cursor move to the trace |
| PaintContext.Screen.Wr | fsel/lib/paint_context.py:32 | `Screen.wr` appends one write to the trace |
| PaintContext.Screen.EraseChars | fsel/lib/paint_context.py:52 | the `CSI n X` write appends one erase of `n` cells |
| PaintContext.ClearBoxOpsGrow | fsel/lib/paint_context.py:62-65 | clearing one row more appends that row's operations |
| PaintContext.Replay | fsel/lib/paint_context.py:14-65 | running two traces one after the other gives the cursor and cells of running their concatenation |
| PaintContext.MovesKeepCells | fsel/lib/paint_context.py:18 | a cursor move changes no cell and puts the cursor there |
| PaintContext.RunLandsInClip | fsel/lib/paint_context.py:26-32 | for a run with a visible part, the optional move leaves the cursor on its first visible column, so the following write or erase acts from there |
| PaintContext.PaintOps | fsel/lib/paint_context.py:20-36 | the operations `paint_string` sends; `PaintShowsVisibleColumns` states what they show |
| PaintContext.ClearOps | fsel/lib/paint_context.py:38-56 | the operations `clear_num_pos` sends; `ClearBlanksVisibleColumns` states what they blank |
| PaintContext.ClearBoxOps | fsel/lib/paint_context.py:58-65 | the operations `clear_box` sends; `ClearBoxOpsGrow` and `ClearBoxBlanksBox` state what they are and what they blank |
| PaintContext.PaintShowsVisibleColumns | fsel/lib/paint_context.py:20-36 | painting shows exactly the characters of `s` whose columns are inside the clip, each in its column (`s[before:to]`), and changes no other cell; nothing shows outside `[minY, maxY)` |
| PaintContext.ClearBlanksVisibleColumns | fsel/lib/paint_context.py:38-56 | the erase blanks exactly the run's cells inside the clip and no other cell |
| PaintContext.ClearRowBlanksRow | fsel/lib/paint_context.py:63-64 | one row of `clear_box` blanks that row's visible cells, whatever the cursor was |
| PaintContext.ClearBoxBlanksBox | fsel/lib/paint_context.py:58-65 | `clear_box` blanks exactly the box's cells inside the clip, each row once, and no other cell |
| PaintContext.FreshContextShowsNothing | fsel/lib/paint_context.py:7-12 | with the class defaults (an empty clip) nothing painted is shown |
| PaintContext.PaintContext.constructor | fsel/lib/paint_context.py:7-12 | the cursor starts at `sys.maxsize` and the clip is empty |
| PaintContext.PaintContext.Goto | fsel/lib/paint_context.py:14-18 | the logical cursor always moves; a terminal move is sent only inside the clip |
| PaintContext.PaintContext.PaintString | fsel/lib/paint_context.py:20-36 | the cursor advances by `len(s)` whether or not anything shows; the trace gains `PaintOps` (the visible slice, or the move past it) |
| PaintContext.PaintContext.ClearNumPos | fsel/lib/paint_context.py:38-56 | the cursor advances by `length`; the trace gains one erase of the visible cell count when positive (`ClearOps`) |
| PaintContext.PaintContext.ClearRow | fsel/lib/paint_context.py:63-64 | a `goto` to the row's left end and a clear of `width` cells |
| PaintContext.PaintContext.ClearBox | fsel/lib/paint_context.py:58-65 | the trace gains one row of operations per row from `top` to `top + height - 1`, in order; the cursor ends at the last row's right end, and stays put for no rows |
| PathOracle.ChildIn | fsel/lib/path_oracle.py:45 | `stats.get(k)` on the ordered key list: absent exactly when no entry carries the key |
| PathOracle.Put | fsel/lib/path_oracle.py:46 | `stats[k] = v`: an existing key keeps its place and the length, a new key is appended, every other entry is unchanged |
| PathOracle.PutThenGet | fsel/lib/path_oracle.py:45-51 | after `stats[k] = v`, `get(k)` gives `v` and every other key reads as before |
| PathOracle.GetEntry | fsel/lib/path_oracle.py:55-60 | `get_entry`; `GetEntryConcat` and `GetEntryOneLevel` state where it leads |
| PathOracle.GetEntryConcat | fsel/lib/path_oracle.py:55-60 | following `p + q` is following `p`, then `q` from where it ends (None if `p` fails) |
| PathOracle.GetEntryOneLevel | fsel/lib/path_oracle.py:55-60 | the empty path gives the dictionary itself; a one-key path gives that key's value |
| PathOracle.EmptyHasNoEntries | fsel/lib/path_oracle.py:55-60 | an empty dictionary has no entry below it and every counter reads 0 |
| PathOracle.Incr | fsel/lib/path_oracle.py:43-53 | `incr`; `IncrBelow`, `IncrCounts`, `IncrKeepsOthers`, `IncrWellFormed`, `IncrAllCounted` and `IncrCreates` state what it changes and keeps |
| PathOracle.IncrBelow | fsel/lib/path_oracle.py:43-53 | `incr` at `p + q` acts at `p` as `incr` at `q` on the dictionary found there (a fresh one when missing) |
| PathOracle.IncrCounts | fsel/lib/path_oracle.py:43-53 | the counter at the incremented path rises by exactly one, a missing counter counting as 0 |
| PathOracle.IncrKeepsOthers | fsel/lib/path_oracle.py:43-53 | the counter at every other path is unchanged |
| PathOracle.PutKeeps | fsel/lib/path_oracle.py:46 | every entry after `stats[k] = v` is either the new one or the old entry at that position |
| PathOracle.IncrWellFormed | fsel/lib/path_oracle.py:43-53 | on a path without the `.` key, `incr` keeps `.` from appearing as a name at any level |
| PathOracle.ChildWellFormed | fsel/lib/path_oracle.py:59 | a child of a well-formed dictionary is well formed |
| PathOracle.ChildInMember | fsel/lib/path_oracle.py:45 | a found value is one of the stored values |
| PathOracle.IncrAllCounted | fsel/lib/path_oracle.py:13-22 | recording a name under an existing path keeps every child at every level carrying a counter, which `most_frequent_in` reads |
| PathOracle.ChildAllCounted | fsel/lib/path_oracle.py:59 | a child of an all-counted dictionary is all counted and carries a counter itself |
| PathOracle.AllCountedEntry | fsel/lib/path_oracle.py:55-60 | every dictionary reached in an all-counted dictionary is all counted |
| PathOracle.IncrCreates | fsel/lib/path_oracle.py:48-51 | after `incr`, every level along the path exists |
| PathOracle.FirstMax | fsel/lib/path_oracle.py:32-41 | a position holding the largest count, with every earlier position strictly smaller |
| PathOracle.ScanPicksFirstMax | fsel/lib/path_oracle.py:35-40 | the loop run from position `i` ends on the name of the first maximum at or after `i` when that count beats the running top count, and on its current answer otherwise |
| PathOracle.MostFrequent | fsel/lib/path_oracle.py:32-41 | `most_frequent_in`; `MostFrequentIsFirstStrictMax` and `MostFrequentIsAName` state which name it gives |
| PathOracle.MostFrequentIsFirstStrictMax | fsel/lib/path_oracle.py:32-41 | `None` exactly when no count is positive; otherwise the name of the first child with the largest count |
| PathOracle.MostFrequentIsAName | fsel/lib/path_oracle.py:36 | the answer is never the counter key `.` |
| PathOracle.Recall | fsel/lib/path_oracle.py:24-30 | `recall_chosen_name` on the statistics; `RecallUnrecorded` and `RecallAfterMemorize` state what it recalls |
| PathOracle.RecallUnrecorded | fsel/lib/path_oracle.py:24-30 | a path never recorded, or with no recorded choice, recalls nothing |
| PathOracle.RecallAfterMemorize | fsel/lib/path_oracle.py:13-30 | after the first persistent choice of `n` under a path, recall at that path gives `n` |
| PathOracle.PathOracle.constructor | fsel/lib/path_oracle.py:7-11 | the given history and statistics are kept, the visit history starts empty |
| PathOracle.PathOracle.Memorize | fsel/lib/path_oracle.py:13-22 | a persistent choice is stored in the root history and counted in the statistics; a non-persistent one goes to the visit history only; the other fields are unchanged and well-formedness is kept |
| PathOracle.PathOracle.RecallChosenName | fsel/lib/path_oracle.py:24-30 | the most frequent choice at the path in the statistics, `None` when the path was never recorded |
| PathOracle.PathOracle.MostFrequentIn | fsel/lib/path_oracle.py:32-41 | the loop's answer is `MostFrequent`, the first strict maximum characterised above |
| ListBoxes.ChoiceIndex | fsel/lib/list_boxes.py:131-132 | the cursor position is always inside a non-empty listing |
| ListBoxes.ChoiceIndexIsFirst | fsel/lib/list_boxes.py:131-132 | the cursor lands on the first entry carrying the remembered name, and on 0 when no name is remembered or none matches |
| ListBoxes.Names | fsel/lib/list_boxes.py:155 | one selected name per pane |
| ListBoxes.NamesSelected | fsel/lib/list_boxes.py:155 | name `k` is the name selected in pane `k` |
| ListBoxes.NamesPrefix | fsel/lib/list_boxes.py:155 | the names of a prefix of the panes are a prefix of the names |
| ListBoxes.SelectedItems | fsel/lib/list_boxes.py:158 | entry `k` is the one selected in pane `k` |
| ListBoxes.ListBoxes.Path | fsel/lib/list_boxes.py:154-155 | `path(index)` has one name per pane `0..index` |
| ListBoxes.ListBoxes.PathLists | fsel/lib/list_boxes.py:154-155 | name `k` of `path(index)` is the one selected in pane `k` |
| ListBoxes.ListBoxes.ItemsPath | fsel/lib/list_boxes.py:157-158 | `items_path(index)` holds the entry selected in each pane `0..index`, in order |
| ListBoxes.ListBoxes.MaxChildHeight | fsel/lib/list_boxes.py:148-149 | `max` of the listing lengths (`MaxOf`): no listing shown is longer, and one pane's is exactly as long |
| ListBoxes.ListBoxes.SelectedNameOk | fsel/lib/list_boxes.py:145-146 | a selected name is never the oracle's counter key |
| ListBoxes.ListBoxes.PathNamesOk | fsel/lib/list_boxes.py:154-155 | no name on a path is the oracle's counter key, so recording it keeps the statistics well formed |
| ListBoxes.ListBoxes.constructor | fsel/lib/list_boxes.py:16-20 | the lister and oracle are kept, both strings start empty, and the panes are what `boxes_for_path(initial_path)` builds |
| ListBoxes.ListBoxes.BoxesForPath | fsel/lib/list_boxes.py:40-63 | one fresh pane per prefix of the path until the whole path or an empty listing; panes before the last segment have their cursor on the next segment, and the last segment's pane (the root's for an empty path) has the focus |
| ListBoxes.ListBoxes.BuiltFocus | fsel/lib/list_boxes.py:56-61 | a built stack has at most one pane with the focus flag, and none exactly when the listings stop short of the path |
| ListBoxes.ListBoxes.CreatePanes | fsel/lib/list_boxes.py:41-53 | the first loop stops after the whole path or at the first empty listing; pane `k` lists prefix `k` with its cursor on the next segment or on the recalled name |
| ListBoxes.ListBoxes.PlaceCursors | fsel/lib/list_boxes.py:56-61 | the second loop turns every pane made by the first loop into the pane `boxes_for_path` promises |
| ListBoxes.ListBoxes.PaneAfterPathBuilt | fsel/lib/list_boxes.py:56-61 | the pane past the last segment is never reached by the second loop and is already as promised |
| ListBoxes.ListBoxes.PlacePane | fsel/lib/list_boxes.py:57-61 | one round: the last segment's pane gets the focus (and ends the loop), any earlier pane gets its cursor on the next segment |
| ListBoxes.ListBoxes.MakeBox | fsel/lib/list_boxes.py:120-133 | a fresh, unfocused pane as wide as the longest name, as high as the listing, its cursor on the preferred name, or when none is given on the name the oracle recalls |
| ListBoxes.ListBoxes.MakeBoxOrNone | fsel/lib/list_boxes.py:112-118 | no pane exactly when the listing under the path is empty; otherwise the pane `make_box` gives |
| ListBoxes.ListBoxes.Trail | fsel/lib/list_boxes.py:154-155 | one selected name per pane |
| ListBoxes.ListBoxes.PathIsTrailPrefix | fsel/lib/list_boxes.py:154-155 | every `path(index)` is a prefix of the path of the last pane |
| ListBoxes.ListBoxes.AppendedFolders | fsel/lib/list_boxes.py:72-79 | every pane appended by expansion lists the path of the selections in the panes before it |
| ListBoxes.ListBoxes.AppendedUnfocused | fsel/lib/list_boxes.py:75 | panes appended by expansion never have the focus |
| ListBoxes.ListBoxes.ExpandLists | fsel/lib/list_boxes.py:65-83 | the old panes stay; each new pane lists the children of the selection before it, with the recalled name under the cursor; it stops at a leaf, at an empty listing, or after a pane with two or more entries for which nothing is recalled |
| ListBoxes.ListBoxes.ExpandOnce | fsel/lib/list_boxes.py:69-83 | one round appends at most one pane and keeps the loop's invariant, and says whether the loop stops |
| ListBoxes.ListBoxes.Grow | fsel/lib/list_boxes.py:79-83 | appending keeps the chain; the loop stops only where `expand_lists` stops and goes on only through a single entry or a recalled name |
| ListBoxes.ListBoxes.NextPane | fsel/lib/list_boxes.py:72-78 | the name recalled under the path of the last pane, and a pane for that path's listing exactly when it is not empty |
| ListBoxes.ListBoxes.AppendBox | fsel/lib/list_boxes.py:79 | the pane is appended and the path of the last pane grows by its selection |
| ListBoxes.ListBoxes.ActivateSibling | fsel/lib/list_boxes.py:86-90 | panes `0..index` are kept, the rest is re-expanded from them, and pane `index`'s selection is recorded for this session only; the persistent history and counters do not change |
| ListBoxes.ListBoxes.Reexpand | fsel/lib/list_boxes.py:88-89 | panes `0..index` are kept and expansion restarts after them |
| ListBoxes.ListBoxes.Truncate | fsel/lib/list_boxes.py:88 | exactly panes `0..index` remain |
| ListBoxes.ListBoxes.TryToGoIn | fsel/lib/list_boxes.py:92-110 | true exactly on the last pane, on a directory with a non-empty listing, and then a pane for that listing is appended and expanded; otherwise the panes are unchanged; the selection is recorded for the session exactly when on the last pane and not at a leaf |
| ListBoxes.ListBoxes.Descend | fsel/lib/list_boxes.py:102-110 | from the last pane on a directory: a pane and its expansion are appended exactly when the listing is not empty |
| ListBoxes.ListBoxes.Enter | fsel/lib/list_boxes.py:108-109 | the pane is appended after the old ones and expansion continues from it |
| ListBoxes.ListBoxes.MemorizeChoiceInList | fsel/lib/list_boxes.py:135-137 | the oracle records pane `index`'s selection under the path of the panes before it: persistent choices go to the root history and the counters, session choices only to the visit history |
| ListBoxes.ListBoxes.ChoiceIsRecordable | fsel/lib/list_boxes.py:135-137 | the recorded path and name contain no counter key, and together they are `path(index)` |
| ListBoxes.ListBoxes.Search | fsel/lib/list_boxes.py:23-38 | the search string is always stored; when no pane matches nothing else changes; when one does, the match string is stored and every pane is narrowed with its selection kept |
| ListBoxes.ListBoxes.NarrowAll | fsel/lib/list_boxes.py:35-38 | every pane shows its matching entries plus its selection, with the cursor still on that selection |
| ListBoxes.ListBoxes.FoundSomewhere | fsel/lib/list_boxes.py:27-30 | true exactly when some pane lists a name containing the string |
| SelectPathDialog.HitsBelowAreHits | fsel/lib/select_path_dialog.py:251-255 | the collected lines are hits below `n`, every hit below `n` is collected, in ascending order |
| SelectPathDialog.MatchIndices | fsel/lib/select_path_dialog.py:246-256 | no match indices while the match string is empty |
| SelectPathDialog.MatchIndicesAreHits | fsel/lib/select_path_dialog.py:246-256 | for a non-empty match string the indices are exactly the lines whose name contains it, ascending; a pane has a hit exactly when the list is non-empty |
| SelectPathDialog.Shown | fsel/lib/select_path_dialog.py:263-264 | one shown listing per pane, the pane's entries |
| SelectPathDialog.ShownIs | fsel/lib/select_path_dialog.py:263-264 | the shown listings are determined by the panes' entries |
| SelectPathDialog.NoMatches | fsel/lib/select_path_dialog.py:258-270 | the total count is 0 exactly when no pane has a match |
| SelectPathDialog.LastPaneWithMatch | fsel/lib/select_path_dialog.py:265-268 | the pane `last_idx` ends on has a match and no later pane does; none exactly when no pane has one |
| SelectPathDialog.MatchMap | fsel/lib/select_path_dialog.py:262-269 | `match_indices_by_widget` has a key exactly for each pane with a match, holding that pane's match indices |
| SelectPathDialog.MatchMapStep | fsel/lib/select_path_dialog.py:265-269 | one more pane adds its entry exactly when it has a match |
| SelectPathDialog.LastMatchStep | fsel/lib/select_path_dialog.py:265-268 | one more pane takes over `last_idx` and `last_line` exactly when it has a match |
| SelectPathDialog.CountedStart | fsel/lib/select_path_dialog.py:259-262 | the initial values are the tally of no panes |
| SelectPathDialog.CountedStep | fsel/lib/select_path_dialog.py:263-269 | one round of the loop extends the tally by one pane |
| SelectPathDialog.SingleMatch | fsel/lib/select_path_dialog.py:193-197 | with exactly one match in all panes, the reported pane holds it, once, and no other pane has a match |
| SelectPathDialog.SingleMatchIsOnlyHit | fsel/lib/select_path_dialog.py:193-197 | with exactly one match, the reported pane and line are that match, and every other line of every pane misses |
| SelectPathDialog.RangeUp | fsel/lib/select_path_dialog.py:224 | `range(start, stop)`: the integers from `start` up to before `stop` |
| SelectPathDialog.RangeDown | fsel/lib/select_path_dialog.py:221 | `range(start, stop, -1)`: the integers from `start` down to after `stop` |
| SelectPathDialog.FirstHitAt | fsel/lib/select_path_dialog.py:239-244 | the first position of the range whose index modulo the pane length is a hit; none when no position is |
| SelectPathDialog.ScrollTarget | fsel/lib/select_path_dialog.py:235-244 | any target line is inside the pane and a hit |
| SelectPathDialog.ScanUp | fsel/lib/select_path_dialog.py:223-227 | scanning `[a, b)` upward lands on its lowest hit, none when it has no hit |
| SelectPathDialog.ScanDown | fsel/lib/select_path_dialog.py:220-221 | scanning from `a` down to just above `b` lands on the highest hit, none when there is no hit |
| SelectPathDialog.ModOnce | fsel/lib/select_path_dialog.py:240 | `j % len` for `j` below twice the length wraps at most once |
| SelectPathDialog.ScanAll | fsel/lib/select_path_dialog.py:232-233 | scanning the whole pane round from the cursor finds a hit exactly when there is one, and the nearest one at or after the cursor |
| SelectPathDialog.FirstPaneAt | fsel/lib/select_path_dialog.py:278-285 | the first pane of the range with a match, none when no pane of the range has one |
| SelectPathDialog.PanesRight | fsel/lib/select_path_dialog.py:272-273 | the panes right of the focused one are looked at nearest first: the pane found is right of it with no match in between |
| SelectPathDialog.PanesLeft | fsel/lib/select_path_dialog.py:275-276 | the panes left of the focused one are looked at nearest first: the pane found is left of it with no match in between |
| SelectPathDialog.ColumnsApart | fsel/lib/select_path_dialog.py:31-36 | each pane starts past the right edge of every pane before it, one blank column apart at least |
| SelectPathDialog.Columns | fsel/lib/select_path_dialog.py:31-36 | one column per placed pane |
| SelectPathDialog.ColumnsAt | fsel/lib/select_path_dialog.py:35-36 | pane `k` sits at the dialog's column plus the widths of the panes before it, each plus one |
| SelectPathDialog.LastFocusIndex | fsel/lib/select_path_dialog.py:36-40 | the `focus_idx` the loop of `layout` leaves when started from -1: the last flagged pane, and -1 exactly when no pane is flagged |
| SelectPathDialog.ShortPathLeavesNoFocus | fsel/lib/list_boxes.py:56-61 | as written, a path the listings stop short of, once expanded, leaves no pane flagged, so `layout` finds no focused child |
| SelectPathDialog.OneFocusedIsLast | fsel/lib/select_path_dialog.py:37-40 | with exactly one focused pane, `layout` picks that pane as the focused child |
| SelectPathDialog.OneFocusedExtended | fsel/lib/select_path_dialog.py:23 | appending panes without the focus leaves the one focused pane the only one |
| SelectPathDialog.DropLast | fsel/lib/select_path_dialog.py:185 | `s[:-1]`: empty stays empty; otherwise the result plus the last character is `s` |
| SelectPathDialog.CommitKeepsOthers | fsel/lib/select_path_dialog.py:123-125 | committing the first `n` panes leaves the count of every path that is not one of the chosen prefixes unchanged |
| SelectPathDialog.CommitCountsEachPrefix | fsel/lib/select_path_dialog.py:123-125 | committing the first `n` panes adds exactly one use to each of the `n` chosen prefixes |
| SelectPathDialog.CommitCountsNewest | fsel/lib/select_path_dialog.py:123-125 | the path of the last committed pane gains exactly one use |
| SelectPathDialog.SelectPathDialog.constructor | fsel/lib/select_path_dialog.py:19-25 | the old panes stay first in the expanded stack; the dialog is valid, focused on the pane with the focus flag or, when none has it, on the last pane given; that pane starts on screen and, when it fits, ends on screen |
| SelectPathDialog.SelectPathDialog.Open | fsel/lib/select_path_dialog.py:23-25 | expansion, layout and scrolling keep the old panes; the focus lands on the flagged pane, or on the last pane given when none is flagged, and that pane ends up on screen |
| SelectPathDialog.SelectPathDialog.ExpandStack | fsel/lib/select_path_dialog.py:23 | `expand_lists` keeps the given panes first and appends fresh ones; at most one pane stays flagged, and the last flagged one is unchanged |
| SelectPathDialog.SelectPathDialog.LayoutKeepingFocus | fsel/lib/select_path_dialog.py:24 | `layout` places the stack as the children and keeps the focus flags; the flagged pane becomes the focused child, and with none flagged the focus index stays |
| SelectPathDialog.SelectPathDialog.LayoutPlacing | fsel/lib/select_path_dialog.py:27-40 | the children are the stack, placed; the last flagged pane becomes the focused child, and with none flagged the focused child and index stay |
| SelectPathDialog.SelectPathDialog.SettleFocus | fsel/lib/select_path_dialog.py:23-25 | with no flagged pane, the last pane given takes the flag and the focus; otherwise the flagged pane stays focused; either way the dialog is valid and the children and their columns are unchanged |
| SelectPathDialog.SelectPathDialog.ExpansionKeepsFocus | fsel/lib/select_path_dialog.py:23 | panes appended by `expand_lists` leave the one focused pane the only one |
| SelectPathDialog.SelectPathDialog.ExpansionKeepsLastFocus | fsel/lib/select_path_dialog.py:23 | appended panes carry no focus flag, so at most one pane stays flagged and the last flagged pane is the same |
| SelectPathDialog.SelectPathDialog.Layout | fsel/lib/select_path_dialog.py:27-40 | the children are the panes placed left to right; the frame asks for the longest listing capped by the screen, each pane gets its listing's height capped by the frame's; the last pane with the focus flag becomes the focused child, and with none the old focus stays |
| SelectPathDialog.SelectPathDialog.PlaceChildren | fsel/lib/select_path_dialog.py:30-40 | the loop of `layout`: every pane is placed and sized, the last flagged pane becomes the focused child |
| SelectPathDialog.SelectPathDialog.PlaceChild | fsel/lib/select_path_dialog.py:34-40 | one round keeps the loop's invariant for one more pane |
| SelectPathDialog.SelectPathDialog.Relayout | fsel/lib/select_path_dialog.py:27-40 | with exactly one flagged pane, `layout` keeps the panes and focuses that pane |
| SelectPathDialog.SelectPathDialog.ChangeFocus | fsel/lib/select_path_dialog.py:105 | the given child becomes the focused child, taking the focus flag from the old one |
| SelectPathDialog.SelectPathDialog.FocusPane | fsel/lib/select_path_dialog.py:104-105 | pane `i` becomes the focused child and the dialog stays valid |
| SelectPathDialog.SelectPathDialog.MoveFocus | fsel/lib/select_path_dialog.py:86-88 | the focus moves `d` children on, round the end, and no pane's entries or cursor change |
| SelectPathDialog.SelectPathDialog.Shift | fsel/lib/select_path_dialog.py:50-51 | the dialog and the focused pane move `dx` columns, nothing else changes |
| SelectPathDialog.SelectPathDialog.MovedToMakeTailVisible | fsel/lib/select_path_dialog.py:55-61 | 1 exactly when the focused pane's right edge was past the screen's, and then it ends on the screen's edge; 0 leaves the dialog where it was |
| SelectPathDialog.SelectPathDialog.MovedToMakeHeadVisible | fsel/lib/select_path_dialog.py:47-53 | 1 exactly when the focused pane started left of the screen, and then it starts at column 0; 0 leaves the dialog where it was |
| SelectPathDialog.SelectPathDialog.MakeFocusedColumnVisible | fsel/lib/select_path_dialog.py:43-45 | afterwards the focused pane starts on screen; when aligning right, a pane that fits ends on screen; a pane already visible does not move the dialog |
| SelectPathDialog.SelectPathDialog.ShowFocused | fsel/lib/select_path_dialog.py:90-91 | the focused pane starts on screen and the focus is kept |
| SelectPathDialog.SelectPathDialog.NavigateRight | fsel/lib/select_path_dialog.py:77-92 | Right: the focus moves one pane right, or from the last pane onto the new pane when going in succeeds, and stays otherwise |
| SelectPathDialog.SelectPathDialog.StepRight | fsel/lib/select_path_dialog.py:81-88 | the move of Right, with every pane afterwards either an old one or a new one |
| SelectPathDialog.SelectPathDialog.GoIn | fsel/lib/select_path_dialog.py:82-86 | true exactly when panes were added, and then the focus is on the first new pane; otherwise nothing moves |
| SelectPathDialog.SelectPathDialog.NewPanesUnfocused | fsel/lib/select_path_dialog.py:82 | panes added by `try_to_go_in` leave the last old pane the only focused one |
| SelectPathDialog.SelectPathDialog.FocusNewPane | fsel/lib/select_path_dialog.py:84-86 | `layout` and `move_focus(1)` put the focus on pane `n` |
| SelectPathDialog.SelectPathDialog.NavigateLeft | fsel/lib/select_path_dialog.py:93-100 | Left: the focus moves one pane left, except on the first pane; the panes stay |
| SelectPathDialog.SelectPathDialog.NavigateToEnd | fsel/lib/select_path_dialog.py:101-116 | Home focuses the first pane, End the last; the panes stay |
| SelectPathDialog.SelectPathDialog.HandleKey | fsel/lib/select_path_dialog.py:66-151 | Quit and Alt-Home (with no pane focused) end the dialog with the key, Esc cancels when set to, a key of the exit-code table other than Enter and the Tabs is handed back at once; Right, Left, Home and End move the focus as above; the dialog stays valid while it goes on |
| SelectPathDialog.SelectPathDialog.Navigate | fsel/lib/select_path_dialog.py:77-116 | Right, Left, Home and End set the focus as stated for `NavigateRight`, `NavigateLeft` and `NavigateToEnd`, and the dialog stays valid |
| SelectPathDialog.SelectPathDialog.HandleFocusedKey | fsel/lib/select_path_dialog.py:117-151 | OK exactly for Shift-Tab, Tab and Enter (Shift-Tab with no pane, Tab with the last pane focused), each pane up to the focused one committed for Tab and Enter; a search key is handled, and the focus stays unless it is Alt-Right, Alt-Left or typed text; every other key keeps the focused pane, clears the search string for Up, Down, PgUp and PgDn, and otherwise keeps the search string and the pane's listing and moves its cursor as the list widget does |
| SelectPathDialog.SelectPathDialog.HandleInPane | fsel/lib/select_path_dialog.py:129-143 | handled exactly for a search key, the list widget's reply otherwise; the dialog stays valid; the focus stays unless the key is Alt-Right, Alt-Left or typed text; a non-search key keeps the focused pane; Up, Down, PgUp and PgDn leave the search string empty; any other non-search key keeps the search string and the focused pane's listing, and leaves its cursor where the list widget puts it, after the panes to the right are rebuilt |
| SelectPathDialog.SelectPathDialog.DispatchKey | fsel/lib/select_path_dialog.py:129-136 | the same replies and key-by-key facts as `HandleInPane`, before the panes are rebuilt, and the stack of panes is the same |
| SelectPathDialog.SelectPathDialog.PaneKey | fsel/lib/select_path_dialog.py:133-136 | Up, Down, PgUp and PgDn leave the search string empty; any other key keeps the search string and the focused pane's listing and moves its cursor as the list widget does; the dialog stays valid |
| SelectPathDialog.SelectPathDialog.ListKey | fsel/lib/select_path_dialog.py:136 | the list widget moves the cursor to the line it computes for the key, clamped into the list, and the choice follows it |
| SelectPathDialog.SelectPathDialog.Reactivate | fsel/lib/select_path_dialog.py:140-143 | after rebuilding the panes right of the focused one, the focus index and the focused pane stay, and the dialog is valid; by its frame it changes no pane's cursor, listing or search string |
| SelectPathDialog.SelectPathDialog.ActivateFocused | fsel/lib/select_path_dialog.py:141 | panes up to the focused one stay, the rest are new, and the focused pane stays the only flagged one |
| SelectPathDialog.SelectPathDialog.SearchWidgetAndScroll | fsel/lib/select_path_dialog.py:235-244 | the line reached is `ScrollTarget`: cursor and choice move there and scroll into view; with no target the pane is unchanged |
| SelectPathDialog.SelectPathDialog.SearchWidgetUp | fsel/lib/select_path_dialog.py:229-230 | to the nearest hit above the cursor, if any; the pane is unchanged otherwise |
| SelectPathDialog.SelectPathDialog.SearchWidgetDown | fsel/lib/select_path_dialog.py:226-227 | to the nearest hit below the cursor, if any; the pane is unchanged otherwise |
| SelectPathDialog.SelectPathDialog.SearchWidgetFirst | fsel/lib/select_path_dialog.py:223-224 | to the first hit of the pane, if any; the pane is unchanged otherwise |
| SelectPathDialog.SelectPathDialog.SearchWidgetLast | fsel/lib/select_path_dialog.py:220-221 | to the last hit of the pane when it is below the cursor; the pane is unchanged otherwise |
| SelectPathDialog.SelectPathDialog.SearchWidgetAll | fsel/lib/select_path_dialog.py:232-244 | nothing when asked to stay on a cursor that is on a hit; otherwise a line exactly when the pane has a hit, the nearest one round from the cursor |
| SelectPathDialog.SelectPathDialog.SearchWidgetGetMatches | fsel/lib/select_path_dialog.py:246-256 | the match indices, their number, and the last of them (0 when there is none) |
| SelectPathDialog.SelectPathDialog.MatchesInBoxes | fsel/lib/select_path_dialog.py:258-270 | the total count, the last pane with a match and its last match line, and the map of match indices by pane |
| SelectPathDialog.SelectPathDialog.Tally | fsel/lib/select_path_dialog.py:265-269 | one round of the loop extends the tally by pane `idx` |
| SelectPathDialog.SelectPathDialog.SearchWidgets | fsel/lib/select_path_dialog.py:278-285 | the focus index moves to the first pane of the range with a match, none when no pane has one; that pane's cursor goes to its nearest hit round the cursor, and every other pane is untouched |
| SelectPathDialog.SelectPathDialog.SearchOnePane | fsel/lib/select_path_dialog.py:280-281 | a line is returned exactly when the pane has a match; the cursor then lands on the nearest hit round the old cursor and the pane scrolls to it; otherwise the pane is untouched; every pane keeps its cursor on a line |
| SelectPathDialog.SelectPathDialog.SearchWidgetsRight | fsel/lib/select_path_dialog.py:272-273 | the focus index moves to the nearest pane to the right with a match; when there is none it stays and no pane to the right has a match |
| SelectPathDialog.SelectPathDialog.SearchWidgetsLeft | fsel/lib/select_path_dialog.py:275-276 | the focus index moves to the nearest pane to the left with a match; when there is none it stays and no pane to the left has a match |
| SelectPathDialog.SelectPathDialog.RevealFound | fsel/lib/select_path_dialog.py:175-176 | the pane found becomes the focused child and starts on screen |
| SelectPathDialog.SelectPathDialog.SearchPanes | fsel/lib/select_path_dialog.py:186 | the search string is stored and the panes stay the dialog's children |
| SelectPathDialog.SelectPathDialog.JumpToMatch | fsel/lib/select_path_dialog.py:195-200 | pane `idx` becomes the focused child with its cursor on `line`, on screen |
| SelectPathDialog.SelectPathDialog.SetCursor | fsel/lib/select_path_dialog.py:197-198 | the cursor is on `line` and the stack stays valid |
| SelectPathDialog.SelectPathDialog.ScrollToCursor | fsel/lib/select_path_dialog.py:211 | the pane scrolls as `make_cur_line_visible` does |
| SelectPathDialog.SelectPathDialog.TypeAhead | fsel/lib/select_path_dialog.py:188-214 | the search string grows by the typed text; with exactly one match in all panes the focused pane's cursor is on it, otherwise the focus stays |
| SelectPathDialog.SelectPathDialog.FollowTyped | fsel/lib/select_path_dialog.py:191-214 | with exactly one match the focus and cursor go to it; otherwise the focus stays |
| SelectPathDialog.SelectPathDialog.LocateMatches | fsel/lib/select_path_dialog.py:191-202 | the total count; with one match its pane and line are a hit; whether the focused pane has a match |
| SelectPathDialog.SelectPathDialog.FollowMatch | fsel/lib/select_path_dialog.py:193-213 | on a single match, that pane is focused with its cursor on the line; otherwise the focus stays; no pane's entries change |
| SelectPathDialog.SelectPathDialog.CommitFocus | fsel/lib/select_path_dialog.py:121-126 | Tab moves the focus to the last pane and Enter leaves it; then the choices of every pane up to the focused one are committed, and the pane stack is unchanged |
| SelectPathDialog.SelectPathDialog.Commit | fsel/lib/select_path_dialog.py:123-125 | the root history and the counters gain every choice up to the focused pane, and the visit history is unchanged |
| ListBoxes.ListBoxes.MemorizeOnTrail | fsel/lib/select_path_dialog.py:125 | pane `i`'s name is stored under the path before it and counted once under its own path |
| SelectPathDialog.SelectPathDialog.HandleSearchKey | fsel/lib/select_path_dialog.py:156-218 | true exactly for the search keys; Delete clears both strings, Backspace drops the search string's last character, typed text is appended; only Alt-Right, Alt-Left and typed text can move the focus; a key that is not a search key changes nothing |
| SelectPathDialog.SelectPathDialog.ClearSearch | fsel/lib/select_path_dialog.py:160-162 | both the search string and the match string are empty |
| SelectPathDialog.SelectPathDialog.SearchFocusedPane | fsel/lib/select_path_dialog.py:164-171 | searching the focused pane keeps the dialog valid |
| SelectPathDialog.SelectPathDialog.FocusPaneWithMatch | fsel/lib/select_path_dialog.py:172-183 | the focus moves to a pane on the asked side with a match, or stays when there is none |
| SelectPathDialog.SelectPathDialog.SearchAside | fsel/lib/select_path_dialog.py:172-183 | the focus index moves to a pane on the asked side with a match, or stays |
| LegacyListBoxes.LegacyScrolledTop | fsel/fsel.py:237-243 | the older `make_cur_line_visible`: a cursor above the first row becomes the first row, one within `height` rows of it keeps it, one further below brings the first row to `height - 1` above the cursor (to the cursor when `height` is below 1) |
| LegacyListBoxes.LegacyScrollAgrees | fsel/fsel.py:237-243 | for a cursor and a first row that are not negative the older pane scrolls as the newer one, never to a negative row |
| LegacyListBoxes.Names | fsel/fsel.py:388 | one selected name per pane |
| LegacyListBoxes.PyIndex | fsel/fsel.py:379 | `boxes[index]` succeeds exactly for `-len <= index < len`, and is the pane itself for a non-negative index |
| LegacyListBoxes.IsAtLeafAsWritten | fsel/fsel.py:375-379 | `is_at_leaf(index)` raises exactly where the indexing does, and on an in-range index tells whether the selection is a leaf |
| LegacyListBoxes.ListBoxes.MakeBox | fsel/fsel.py:362-366 | a pane as wide as the longest name and as high as the listing, unfocused at the top, its cursor and choice on the recalled index, else on 0 |
| LegacyListBoxes.ListBoxes.MakeBoxOrNone | fsel/fsel.py:356-360 | no pane exactly when the listing is empty, otherwise the pane `make_box` gives |
| LegacyListBoxes.ListBoxes.BuiltPane | fsel/fsel.py:312-316 | pane `k` of `n` lists prefix `k`; exactly the last one has the focus; each earlier one has its cursor on the next segment when listed, else on 0 |
| LegacyListBoxes.ListBoxes.BoxesForPath | fsel/fsel.py:300-318 | the panes are those described by `BuiltFor`: one per prefix until the whole path or an empty listing, placed as `BuiltPane` says |
| LegacyListBoxes.ListBoxes.CreatePanes | fsel/fsel.py:301-310 | the first loop stops after the whole path or at the first empty listing; pane `j` is `make_box` for prefix `j` |
| LegacyListBoxes.ListBoxes.PlaceCursors | fsel/fsel.py:312-316 | the second loop turns the made panes into the `BuiltPane` ones |
| LegacyListBoxes.ListBoxes.ExpandFrom | fsel/fsel.py:320-335 | expansion keeps the panes it starts from, stays within the listed depth, and keeps every pane listing its folder |
| LegacyListBoxes.ListBoxes.ExpandFromOnce | fsel/fsel.py:323-335 | nothing is added at a leaf or over an empty listing; otherwise a pane for the listing is appended and expansion goes on exactly when it has one entry or a name is recalled |
| LegacyListBoxes.ListBoxes.ExpandFromAppends | fsel/fsel.py:325-331 | every appended pane lists the path of the selections before it, made by `make_box`, after a directory |
| LegacyListBoxes.ListBoxes.ExpandFromStops | fsel/fsel.py:323-335 | expansion ends at a leaf, at an empty listing, or after an appended pane with two or more entries for which nothing is recalled |
| LegacyListBoxes.ListBoxes.ExpandFromGoesOn | fsel/fsel.py:332-335 | expansion went past an appended pane only when it has one entry or a name is recalled |
| LegacyListBoxes.ListBoxes.ExpandLists | fsel/fsel.py:320-335 | the loop leaves exactly `ExpandFrom` of the old panes |
| LegacyListBoxes.ListBoxes.ExpandStep | fsel/fsel.py:322-335 | one turn of the loop keeps the stack valid; when it stops the panes are their expansion, otherwise exactly one pane was appended and the expansion is unchanged |
| LegacyListBoxes.ListBoxes.Path | fsel/fsel.py:387-388 | `path(index)` has the name selected in each pane `0..index` |
| LegacyListBoxes.ListBoxes.ItemsPath | fsel/fsel.py:390-391 | `items_path(index)` has the entry selected in each pane `0..index`, and their names are `path(index)` |
| LegacyListBoxes.ListBoxes.MaxChildHeight | fsel/fsel.py:381-382 | `max` of the listing lengths (`MaxOf`): no listing shown is longer, and one pane's is exactly as long |
| LegacyListBoxes.ListBoxes.constructor | fsel/fsel.py:295-298 | the stack is empty exactly when the root lists nothing, and otherwise is the expansion of the panes `boxes_for_path` builds |
| LegacyListBoxes.ListBoxes.MemorizeChoiceInList | fsel/fsel.py:368-370 | pane `index`'s name is stored under the path before it, in the root history when persistent and in the visit history otherwise; the other history is unchanged |
| LegacyListBoxes.ListBoxes.ActivateSibling | fsel/fsel.py:337-340 | the panes become the expansion of panes `0..index`, and pane `index`'s choice is recorded for the session |
| LegacyListBoxes.ListBoxes.TryToGoIn | fsel/fsel.py:342-354 | true exactly on the last pane, on a directory with a non-empty listing, and then the panes are the expansion of the old ones plus the new pane; otherwise unchanged; the choice is recorded for the session exactly when on the last pane and not at a leaf |
| LegacyListBoxes.ListBoxes.EmptyRootRaises | fsel/fsel.py:295-298 | when the root lists nothing, `boxes_for_path` returns no pane and the `is_at_leaf(-1)` that `expand_lists` then evaluates raises `IndexError` |
| LegacyFsModel.FsModel.constructor | fsel/fsel.py:122-127 | the given root history is kept and the visit history starts empty |
| Recents.RecentList.constructor | fsel/fsel.py:817 | the list as given |
| Sdk.Dict.constructor | fsel/sdk.py:52 | the dictionary as given |
| Style.Style.WithAttrFlag | fsel/lib/tui/style.py:18-19 | `with_attr` on the attribute word or-ed with the flag |
| PyStr.FindFromFirst | fsel/lib/select_path_dialog.py:241 | `find` from `i`: -1, or the first position at or after `i` where the needle occurs; -1 exactly when it occurs nowhere after `i` |
| PyStr.FindIsFirstOccurrence | fsel/lib/custom_list_box.py:163 | `find` gives the lowest occurrence, and a string contains the needle exactly when it occurs somewhere |
| PyStr.ContainsEmpty | fsel/lib/custom_list_box.py:163 | every name contains the empty search string |
| PyStr.ContainsPrefix | fsel/lib/custom_list_box.py:163 | a name contains every prefix of itself |
| PyStr.Join | fsel/lib/path_oracle.py:62-64 | joining no part gives the empty string, one part gives that part |
| PyStr.Slice | fsel/rich_text.py:33 | `s[i:j]` has `j - i` characters when the bounds do not cross, none otherwise |
| PyStr.Spaces | fsel/rich_text.py:37 | `' ' * n` has `n` characters, none when `n` is not positive |
| PyStr.SpacesAreSpaces | fsel/rich_text.py:37 | `' ' * n` is spaces only |
| PyStr.NatToString | fsel/json_model.py:16 | `str(k)` is never empty |
| PyStr.ParseInt | fsel/json_model.py:26 | `int(s)` of a string of ASCII digits is its value; the empty string is rejected |
| PyStr.NatToStringDigits | fsel/json_model.py:16 | `str(k)` is all digits and reads back as `k` |
| PyStr.IntOfStr | fsel/json_model.py:16-26 | `int(str(k)) == k`, so a listed array key selects its own element |
| PyStr.NatToStringInjective | fsel/json_model.py:16 | different indices are listed under different names |
| PyStr.MaxOf | fsel/lib/list_boxes.py:148-149 | Python's `max` of a non-empty list: at least every element, and equal to one of them |
| Bits.Pow2Table | fsel/lib/list_item_info_service.py:9-11 | the flag bits used by the model are the stated powers of two |
| Bits.BitAndPow2 | fsel/lib/palette.py:11-19 | `a & (1 << k)` is non-zero exactly when bit `k` of `a` is set |
| Bits.BitOrTest | fsel/lib/tui/style.py:18-19 | bit `k` of `a \| b` is set exactly when it is set in `a` or in `b` |
| Bits.BitOrIdempotent | fsel/lib/tui/style.py:18-19 | or-ing the same flag twice is or-ing it once |
| Bits.BitOrSwap | fsel/lib/tui/style.py:18-19 | or-ing two flags in either order gives the same word |
| Bits.BitOrKeeps | fsel/lib/tui/style.py:18-19 | or-ing never clears a bit |

## Left out

- SelectPathDialog.SelectPathDialog.constructor: requires at most one pane with the focus flag. `boxes_for_path` flags at most one (`BuiltFocus`); with two flagged panes the source would show two focused columns, which the dialog's invariant excludes.
- SelectPathDialog.SelectPathDialog.HandleKey: its Delete and Backspace ensures rest on an assumption. It assumes the table that fsel/lib/select_path_dialog.py:10 imports, lib/exit_codes_mapping.py, holds the same entries as fsel/exit_codes_mapping.py:8-59. The lib copy is not part of this model. Under that assumption Delete and Backspace always end the dialog at line 74, so the branches at lines 160 and 184 are never reached. The same holds for fsel/fsel.py:550 and :573.
- ExitCodesMapping.ExitCodeOf: models fsel/exit_codes_mapping.py, and the dialog uses it in place of lib/exit_codes_mapping.py, which is not part of this model (see `HandleKey` above).
- ExitCodesMapping.Codes: the numeric exit codes are parameters. They are defined in fsel/exit_codes.py, which is not part of this model. Only the way the table adds them up is modelled.
- ListBoxes.Bounded: the pane stack assumes the lister yields a tree of bounded depth. Without that, `expand_lists` (fsel/lib/list_boxes.py:67-83) would not terminate, and the source simply loops.
- ListBoxes.ListBoxes.Valid: includes that bounded-depth lister, and states the structural invariant the source keeps implicitly between calls.
- LegacyListBoxes.Bounded: the same bounded-depth lister assumption for the older pane stack (fsel/fsel.py:320-335).
- ListBoxes.ListedNamesOk: the lister is assumed never to list the name ".". The oracle's statistics reserve that key for the counter (fsel/lib/path_oracle.py:19-21), and a folder entry named "." would clash with it.
- PathOracle.AllCounted: the oracle's statistics are assumed to carry a "." counter at every level. fsel/lib/path_oracle.py:37 raises `KeyError` on a settings file without one. The model does not represent that exception.
- PathOracle.PathOracle.constructor: in the source, the oracle's dictionaries alias the settings object (fsel/lib/path_oracle.py:7-11). So an update through the oracle is also an update of the settings. In the model they are separate values, and saving the settings is not modelled.
- PathOracle: the commented-out `session_stats` (fsel/lib/path_oracle.py:11, 22) is not modelled.
- CustomListBox.ListBox.SetItems: stands for the toolkit's `set_items`. Only the shown entries are replaced, and the cursor and the top line are left as they were; the pane's search sets the cursor itself. The toolkit's own code is not part of this model.
- SelectPathDialog.SelectPathDialog.MoveFocus: the toolkit's focus cycling is modelled as wrapping around the children with `% |childs|`. The toolkit's code is not part of this model.
- SelectPathDialog.SelectPathDialog.ChangeFocus: stands for the toolkit's `change_focus`. Only the focused widget and the two panes' focus flags are modelled, not the redraw.
- SelectPathDialog.SelectPathDialog.ListKey: the toolkit list box's own handling of the cursor keys (up, down, page up and page down) is a parameter, `listCursor`, whose result is clamped to the listing. Its top-line scrolling is not stated.
- SelectPathDialog.SelectPathDialog.HandleSearchKey: a typed key is `Typed(text)`, the already decoded text. The source's `key.decode("utf-8")` (fsel/lib/select_path_dialog.py:190) is not modelled, and neither are byte sequences that do not decode.
- SelectPathDialog.SelectPathDialog.JumpToMatch: states the focus, the cursor line and that the pane starts on screen. It does not state the new top line or horizontal scroll, nor that the other panes' cursors are unchanged.
- SelectPathDialog.SelectPathDialog.FocusPaneWithMatch: states only that the focused pane lies on the requested side and has a match. It does not state that it is the nearest such pane.
- SelectPathDialog.SelectPathDialog.Reactivate: states that the dialog stays valid and that the focus index and the focused pane are kept. It does not state that the other panes up to the focused one are kept, nor how the stack is re-expanded.
- StyleCombiner.StyleCombiner.MatchStyleFor: the emphasised-background mask is a parameter, because its value, `AbstractBufferWriter.MASK_BG_EMPHASIZED`, comes from the output buffer class, which is not part of this model. The contract holds for every mask.
- SelectPathDialog.SelectPathDialog.HandleInPane: does not state where Up, Down, PgUp and PgDn leave the cursor, because clearing the search first re-filters the focused pane's listing with the empty string (what `ListBoxes.ListBoxes.Search` states about that) and the dialog's contract does not carry this on to the cursor; it does not state the top line of the scrolled pane; and for a search key it states the reply, the focus and the search string, but not the cursors the search moves.
- SelectPathDialog.SelectPathDialog.SearchFocusedPane: states only that the dialog stays valid, not where the cursor of the focused pane lands; the per-key search methods it calls state that.
- SelectPathDialog.SelectPathDialog.HandleFocusedKey: an `Ok` reply does not claim that the dialog stays valid.
- ListItemInfo.ItemFileName: reads the entry's name field, as fsel/lib/list_item_info_service.py:50-51 does. The panes use it in place of lib/item_model.py, which is not part of this model.
- CustomListBox.ListBox.Search: fsel/lib/custom_list_box.py:9 imports lib/item_model.py, which is not part of this model. The match reads the entry's name, as fsel/lib/list_item_info_service.py:50-51 does; fsel/item_model.py:32-33 reads `item[0]` of positional tuples instead, which is modelled separately as `ItemModel`.
- PyStr.ParseInt: accepts an optional sign and ASCII digits only. Python's `int(s)` also accepts surrounding whitespace, `_` separators and non-ASCII digits, and none of those are modelled.
- Palette.PaletteFor: fsel/lib/palette.py:11-19 reads `Colors.C_STICKY_FOLDER` and similar names from lib/colors.py, which does not define them. The tables are taken from fsel/colors.py:21-74 instead (`COLORS_TABLES`).
- Redrawing is abstracted. Where the source calls `redraw()`, the model records only the state that the redraw reads.
- The older dialog, `run` and `main` of fsel/fsel.py (679-702, 710-807 and 825-839) are not modelled. Neither are its command line, its settings file I/O, or its rendering of panes (fsel/fsel.py:249-287).
- The rendering of fsel/lib/custom_list_box.py:42-146 is not modelled. Drawing goes through the paint context, whose model is `PaintContext`.
- The file-system lister (fsel/fs_lister.py and the listing in fsel/fsel.py) is not modelled. It is a parameter of the pane stack. `os.stat` attribute words are inputs.
- fsel/app.py, the toolkit patches, the ANSI helpers and logging are not modelled, nor is the tty set-up and tear-down in fsel/sdk.py.

## Findings

| source | as written | input that shows it | evidently intended | confidence | as-written member | corrected member |
|---|---|---|---|---|---|---|
| fsel/fsel.py:295-298 | the constructor calls `expand_lists()` unconditionally, and `is_at_leaf(-1)` (fsel/fsel.py:321-323) then indexes the empty list of panes | a root folder that lists nothing | the stack stays empty, so that the `is_empty()` exit at fsel/fsel.py:790 is reached | not executed | LegacyListBoxes.ListBoxes.EmptyRootRaises | LegacyListBoxes.ListBoxes.constructor |
| fsel/lib/select_path_dialog.py:23-25 | `layout` sets `focus_w` only for a pane with the focus flag, and `boxes_for_path` (fsel/lib/list_boxes.py:56-59) flags only the pane of the last path segment; when the listings stop before it, no pane is flagged and `make_focused_column_visible` reads `.x` of the unset `focus_w` | an initial path `a/b` where folder `a` lists nothing (it is empty, unreadable, or holds only hidden entries) | open the dialog focused on the deepest pane the path reaches | not executed | SelectPathDialog.ShortPathLeavesNoFocus | SelectPathDialog.SelectPathDialog.SettleFocus |
