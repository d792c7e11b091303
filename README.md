# titanselect autonomous-routine selector, modelled in Dafny

titanselect lets a VEX robot program register named autonomous routines
("autons") at start-up, shows them in a 4 x 4 button matrix on the brain's
screen, keeps track of which one the driver selected, attempts to save that
choice and runs the selected routine's function on request. This
project models the selector's core from `src/titanselect/titanselect.cpp`:

- `autons.dfy` (module `Autons`): an auton entry (a name plus whether its
  function pointer is non-null), the global registry as a `Registry` class
  whose `Register` appends, and the first-match scan by name (`FindByName`
  specifies it, `LookUp` is the loop the source runs three times).
- `button_map.dfy` (module `ButtonMap`): the button map the selector's
  constructor builds. `Layout` specifies it column by column, where a
  "column" is the source's name for a group of R cells closed by a `"\n"`;
  the button matrix shows each group as one row. `Label` is the cell rule.
  `FillButtonMap` and `FillColumn` are the constructor's nested loop,
  writing into an array.
  `ButtonTexts` is how the button matrix numbers its buttons: it skips
  `"\n"` markers and stops at `""`.
- `persistence.dfy` (module `Persistence`): the SD card as a map from path
  to contents, where an absent path is a file that cannot be opened for
  reading.
  `LineOf`/`FirstLine` model `std::getline`. `ReadSavedAuton` is
  `read_saved_auton`. `WriteSavedAuton` is `write_saved_auton`, which writes
  to a file named `"No Auton"`.
- `selection.dfy` (module `Selection`): the `Selector` class with its
  selection, storage, static button map and a ghost log of invoked actions.
  It covers the constructor's restore, the grid branch of `handle_events`,
  `is_auton_selected`, `run_auton`, `run_selected_auton` and
  `get_selected_auton_name`.
- `scenario.dfy` (module `Scenario`): client code showing what callers can
  prove from the contracts. It covers the Left/Right/Skills grid, start-up
  with no saved file, press-then-run, a late registration and a power cycle.

Modelling choices:

- The selection is an `Option<string>`, because `a_selected_auton` is a
  nullable `const char*` and `is_auton_selected` tests for null.
  `Selector.Valid()` proves that it is never null once the selector exists.
- Names are compared by value, as `strcmp` does.
- The registry is a separate object that the selector holds a reference to.
  A registration made after the selector was built therefore reaches
  `RunAuton` but not the button map. This matches the source's global
  vector and its static `btn_map`.
- Calling a null function pointer is undefined behaviour in the source.
  Here it is an explicit `NullCall` outcome that invokes nothing.
- Whether `std::ofstream` managed to open the file is a parameter (`isOpen`).
- Grid presses assume the button matrix's numbering: button `id` is the
  `id`-th map entry that is not `"\n"`, counted before the terminating `""`.
  `ButtonsOfLayout` proves that button `id` then shows registry position
  `id`, provided no shown name is itself `""` or `"\n"`.

Behaviour of the code worth knowing:

- The code writes one `"\n"` after every column, the last one included,
  which gives R*C + C + 1 entries.
- A restored name is accepted without checking that its entry has a function.
- A save goes to a file at the relative path `"No Auton"`, not to
  `/usd/LastSelectedAuton.txt`. The model keeps this behaviour, and
  `SaveLeavesRestoreUnchanged` proves its consequence: no grid press is ever
  remembered across a power cycle, and a restart restores whatever
  `/usd/LastSelectedAuton.txt` already held. `RestoreAfterWriteToSavedPath` shows that a write
  to the configured path would have round-tripped.
- The header's doc comment says `get_selected_auton_name` returns nullptr when
  nothing is selected. The code returns the `"No Auton"` sentinel instead,
  and `GetSelectedAutonName` proves the result is never null.

## Model

| member | source | states |
|---|---|---|
| `Autons.Registry.constructor` | src/titanselect/titanselect.cpp:32 | the registry starts empty |
| `Autons.Registry.Register` | src/titanselect/titanselect.cpp:64-67 | registering appends exactly one entry at the end; all earlier entries and their order are unchanged |
| `Autons.FindByName` | src/titanselect/titanselect.cpp:219-222 | a lookup by name yields the first index holding that name, with no earlier entry of that name, or nothing when no entry has the name |
| `Autons.LookUp` | src/titanselect/titanselect.cpp:43-46 | the early-exit scan over the registry finds exactly the entry `FindByName` specifies |
| `Autons.FindByNameAfterRegister` | src/titanselect/titanselect.cpp:64-67 | a later registration never changes which entry an already-registered name resolves to; duplicates are shadowed by the first |
| `ButtonMap.ColumnsLength` | src/titanselect/titanselect.cpp:117-140 | C columns of R cells and one marker each occupy C*(R+1) entries |
| `ButtonMap.ColumnsAt` | src/titanselect/titanselect.cpp:117-140 | every entry of the column part is either the marker (at offset R of its column) or the label of registry position (p div (R+1))*R + p mod (R+1) |
| `ButtonMap.LayoutLength` | src/titanselect/titanselect.cpp:110 | the button map has R*C + C + 1 entries |
| `ButtonMap.LayoutAt` | src/titanselect/titanselect.cpp:110-141 | complete position-by-position description of `Layout`, the button map: end marker last, "\n" at offset R of each column, otherwise the label of the registry position in column-major order |
| `ButtonMap.SeparatorAt` | src/titanselect/titanselect.cpp:138-139 | column k's "\n" is at position (k+1)*(R+1)-1 |
| `ButtonMap.EndAt` | src/titanselect/titanselect.cpp:141 | the last entry, at position R*C + C, is "" |
| `ButtonMap.IndexSplit` | src/titanselect/titanselect.cpp:117-119 | registry position i < R*C lies in column (a "\n"-closed group) i div R < C at offset i mod R, inside the column part of the map |
| `ButtonMap.EntryAt` | src/titanselect/titanselect.cpp:122-134 | registry position i < R*C sits at (i div R)*(R+1) + i mod R, and the cell rule `Label` puts there its name if it has a function, "Invalid Auton" if not, and "No Auton" past the end of the registry |
| `ButtonMap.ColumnsIgnoreUnshown` | src/titanselect/titanselect.cpp:117-122 | the column part depends only on the first R*C registry entries |
| `ButtonMap.LayoutIgnoresUnshown` | src/titanselect/titanselect.cpp:117-122 | entries past index R*C-1 never reach the button map: appending any entries to a registry of at least R*C leaves the map unchanged |
| `ButtonMap.ButtonTexts` | src/titanselect/titanselect.cpp:82-83 | the button matrix's buttons are never a "\n" marker or the "" end marker, and there are no more of them than map entries |
| `ButtonMap.LabelIsButton` | src/titanselect/titanselect.cpp:122-134 | with displayable names, no cell label is "" or "\n" |
| `ButtonMap.ButtonTextsAppend` | src/titanselect/titanselect.cpp:82-83 | button numbering continues across a concatenation as long as the first part has no end marker |
| `ButtonMap.ButtonTextsPlain` | src/titanselect/titanselect.cpp:82-83 | a run of cells without markers is numbered one button per cell |
| `ButtonMap.ButtonTextsOfColumn` | src/titanselect/titanselect.cpp:119-139 | one column yields its R cells as buttons and contains no end marker |
| `ButtonMap.ButtonTextsOfColumns` | src/titanselect/titanselect.cpp:117-140 | the column part yields exactly the labels of registry positions 0..R*C-1 as buttons, in order |
| `ButtonMap.ButtonsOfLayout` | src/titanselect/titanselect.cpp:82-83 | with displayable names, the matrix has exactly R*C buttons and button i shows the label of registry position i |
| `ButtonMap.FillButtonMap` | src/titanselect/titanselect.cpp:110-141 | the constructor's nested loop leaves the array equal to `Layout` of the registry for the 4 x 4 grid |
| `ButtonMap.FillColumn` | src/titanselect/titanselect.cpp:119-139 | one pass of the outer loop writes column i's cells and marker after the earlier columns and advances both counters |
| `Persistence.LineOf` | src/titanselect/titanselect.cpp:40-41 | the line read is the longest newline-free prefix of the file: a prefix, free of '\n', ending at the file's end or at a '\n' |
| `Persistence.ReadSavedAuton` | src/titanselect/titanselect.cpp:35-49 | the restore returns exactly the name `SavedAuton` specifies: nothing for a missing or empty file or an unknown line |
| `Persistence.RestoreOutcome` | src/titanselect/titanselect.cpp:41-47 | characterises `SavedAuton`: a restore yields a name iff the saved file exists, is non-empty (`FirstLine` gives nothing for an empty file) and its first line equals some registry name; the name is then that line, always a registry name |
| `Persistence.FindByNameIgnoresActions` | src/titanselect/titanselect.cpp:43-46 | the name scan never looks at function pointers |
| `Persistence.SavedAutonIgnoresActions` | src/titanselect/titanselect.cpp:43-46 | a restored selection is accepted whether or not the entry has a function |
| `Persistence.WriteFile` | src/titanselect/titanselect.cpp:53-56 | an opened file holds exactly the text written; no other path changes; a file that fails to open changes nothing |
| `Persistence.WriteSavedAuton` | src/titanselect/titanselect.cpp:51-57 | a save writes the text into the file named "No Auton"; every other path, the restore file included, keeps its presence and contents; a file that fails to open changes nothing |
| `Persistence.SaveLeavesRestoreUnchanged` | src/titanselect/titanselect.cpp:53 | no save is ever seen by a later restore |
| `Persistence.LineOfPlain` | src/titanselect/titanselect.cpp:41 | a text without a newline reads back whole |
| `Persistence.LineOfTerminated` | src/titanselect/titanselect.cpp:41 | a name followed by a newline and anything reads back as the name |
| `Persistence.RestoreAfterWriteToSavedPath` | src/titanselect/titanselect.cpp:37-47 | a non-empty, newline-free registry name written to the restore file would be restored |
| `Selection.Dispatch` | src/titanselect/titanselect.cpp:219-222 | a run finds no match iff no entry has the name; otherwise it targets the first entry of that name, running it if it has a function and faulting if not |
| `Selection.Selector.constructor` | src/titanselect/titanselect.cpp:98-107 | the selection starts as `InitialSelection`: the restored name, or "No Auton" when nothing is restored; the button map is the layout of the registry; nothing has run |
| `Selection.Selector.HandleGridPress` | src/titanselect/titanselect.cpp:80-89 | a press makes the pressed button's text the selection verbatim, sentinels included, and saves it through `WriteSavedAuton`; nothing else changes |
| `Selection.Selector.IsAutonSelected` | src/titanselect/titanselect.cpp:199-205 | true iff the selection satisfies `Selectable`: not null, not "No Auton" and not "Invalid Auton" |
| `Selection.Selector.RunAuton` | src/titanselect/titanselect.cpp:217-223 | the outcome is `Dispatch` on the current registry; exactly that entry's action is logged when it ran, nothing otherwise; selection, storage and registry are unchanged |
| `Selection.Selector.RunSelectedAuton` | src/titanselect/titanselect.cpp:207-215 | invokes nothing when no real auton is selected, else behaves as `RunAuton` of the selection |
| `Selection.Selector.GetSelectedAutonName` | src/titanselect/titanselect.cpp:225-228 | returns the selection, which is never null |
| `Selection.PressSelectable` | src/titanselect/titanselect.cpp:199-205 | pressing button id yields a real selection iff registry position id holds an entry with a function whose name is not a sentinel |
| `Selection.PressThenRun` | src/titanselect/titanselect.cpp:207-215 | after pressing an entry with a function, running the selection targets the first entry of that name, the pressed one unless an earlier entry shares its name |

## Left out

- LVGL widget creation, sizing, positioning, fonts and event wiring (cpp:109, 144-172) are foreign GUI calls. Only the contents of the button map are modelled.
- `display`, `hide`, `set_lv_obj_visibility` and the destructor (cpp:59-62, 175-197) only toggle widget flags or free widgets.
- The "Selected: " label text (cpp:85-87, 164-167) is formatting into a foreign widget.
- The run-button branch of `handle_events` (cpp:73-79) is not modelled. `handle_events` is attached only to the button matrix (cpp:149), and the run button (cpp:154-162) gets no event callback, so that branch cannot run as written. `run_selected_auton` is reachable only through the API (cpp:253-256), which `RunSelectedAuton` models. The branch's `rumble` is controller I/O anyway.
- The lazy singleton `get()` and its `unique_ptr` (cpp:92-96) are not modelled. One explicitly constructed `Selector` stands for it, and the unguarded first use only matters under concurrency.
- The C wrappers (cpp:232-266) only forward. `create_auton` and the `auton` constructor are both `Registry.Register`.
- Pointer identity of names: `read_saved_auton` returns the registry's own pointer, and the model returns the equal string.
- What an auton's function does is not modelled. A call is recorded as its registry position in the ghost `ranLog`.
- Stream failures other than "cannot open" and "empty file" are not modelled, and neither is a partial write.
- The `short` counters `aIndex`/`rIndex` never exceed 21, so their width is not modelled.
- The button matrix itself is not part of this model. `ButtonTexts` states the numbering convention it is assumed to follow.
- Selection.Selector.HandleGridPress: models presses of an existing button only. A press the matrix reports with no button, whose text would be null, is not modelled.
- Null auton names are not modelled: a name is always a string. A `create_auton(NULL, f)` would make `strcmp` and `std::string::compare` undefined, and a null entry in the button map would end the map early, as `""` does.
