# miExecutor launcher core, modelled in Dafny

miExecutor is a popup command launcher for Maya. The user types part of a
command name and the popup suggests matching commands. Return runs the chosen
command, and the name then goes to the front of a most-recently-used history
kept in a text file. Commands come from plugin modules. Each module holds a
name-to-icon dictionary and one `_<name>` method per command.

This project models the sequential core of `miExecutor_pyside.py` and proves
properties of it:

- `PyText`, `PyList`: the Python string and list operations the core uses:
  `rstrip`, ASCII `lower`, substring `in`, `list.index`, `list.remove`.
  `str.rfind`, which `basename` and `splitext` rely on, is `ModuleList.RFind`.
- `History`: `loadHistory` and `updateHistory`. The history file is a value
  (`None` when the file does not exist). `updateHistory` is a method. It moves
  the name to the front and then writes the entries in a loop. The loop stops
  with `TypeError` at a `None` entry, after the file has already been
  truncated.
- `Completion`: the current completion in command mode. It is a
  case-insensitive substring filter over the command names, in their given
  order, overridden by the completer widget's own non-empty completion.
- `Launcher`: `createData`, and the class `UI` with its state: the active
  completer, `executeType`, `_selected`, `currentCompletion`, `lastCommand`,
  and whether the window is closed. Each event is a method: key press, text
  edit, highlight, text change, Return. The widget's values are parameters.
  The command handlers are a table from method name (`"_" + name`) to what the
  call does (completes, or raises `RuntimeError`).
- `CommandDict`: `mergeCommandDict`. It first builds a `MainClass` window,
  whose start-up (`createData`) can already fail. It then folds `dict.update`
  over the modules' `<baseName>Dict` attributes in `baseNames` order. If the
  catalog file is gone while the history still names commands, that start-up
  raises `KeyError`, so the catalog can never be rewritten
  (`MergeBlockedByStaleHistory`).
- `ModuleList`: the base-name and module-name lists (lines 27-47). This
  includes the loop that deletes `__init__` entries while iterating the same
  list. As written, that loop skips the entry right after each deletion, and
  `SweepSkipsNeighbour` shows an input where this matters.

Where the code does not do what its comments and names suggest, the model follows the code:

- A missing history file makes `loadHistory` return `None`, not an empty list.
  Both callers then raise `TypeError`.
- Return with nothing to dispatch does not leave the history alone. It closes
  the window, truncates the history file, and raises `TypeError` (see
  Findings).
- A name with no handler is not handled defensively. The `exec` raises an
  error that is not `RuntimeError`, so it escapes `initialExecution`.
- In history mode, a highlighted history entry does not become the selection.
  `selectionCallback` is connected only to the command completer (line 180).
  So in history mode Return dispatches the typed text, unless an earlier
  highlight in command mode set `executeType` to 1.

## Model

| member | source | states |
|---|---|---|
| `PyText.RStrip` | miExecutor_pyside.py:353 | the result is the input with exactly its trailing whitespace run removed: a prefix, not ending in whitespace, with only whitespace cut |
| `PyText.RStripNewline` | miExecutor_pyside.py:369 | `rstrip` of a name written with its newline gives back the name, when the name has no trailing whitespace |
| `PyList.FirstIndexOf` | miExecutor_pyside.py:42 | `list.index`: the position of an occurrence of the element with no occurrence before it |
| `PyList.RemoveFirst` | miExecutor_pyside.py:365 | `list.remove`: exactly one entry fewer, and nothing that was not in the list |
| `PyText.Lower` | miExecutor_pyside.py:233-236 | `str.lower`: same length, each ASCII capital mapped to its small letter and every other character kept |
| `PyText.Contains` | miExecutor_pyside.py:236 | substring `in`: the empty string occurs in every string, and an occurring piece is no longer than the text |
| `History.ReadLines` | miExecutor_pyside.py:353 | `readlines`: the lines concatenate back to the text; each is non-empty; only its last character may be a newline; every line but the last ends in one |
| `History.Parse` | miExecutor_pyside.py:353 | one name per line of the file, each a prefix of its line |
| `History.Serialize` | miExecutor_pyside.py:367-369 | the written text is empty exactly for the empty list, and otherwise ends in a newline |
| `History.Promote` | miExecutor_pyside.py:364-366 | the recorded name comes first; the length grows by one only when the name was absent |
| `History.LoadHistory` | miExecutor_pyside.py:348-357 | an existing file is left unchanged and read as its rstripped lines; a missing file is created empty and the result is `None` |
| `History.ParsedStorable` | miExecutor_pyside.py:353 | no loaded name contains a newline or ends in whitespace |
| `History.PromoteShape` | miExecutor_pyside.py:364-366 | after recording `c` the list starts with `c`; a present `c` loses only its first occurrence and the length is kept; an absent `c` adds one entry; every other entry keeps its relative order; the multiset gains `c` only when it was absent |
| `History.PromoteIdempotent` | miExecutor_pyside.py:364-366 | recording the same name twice gives the list that recording it once gives |
| `History.PromoteKeepsNoDuplicates` | miExecutor_pyside.py:364-366 | a duplicate-free history stays duplicate-free |
| `History.WriteEntries` | miExecutor_pyside.py:367-369 | the write loop succeeds exactly when no entry is `None`, writing every entry followed by a newline; a `None` in front leaves the truncated file empty and raises `TypeError` |
| `History.UpdateHistory` | miExecutor_pyside.py:360-369 | with an existing file and a name, the file becomes the promoted list, serialized; with a missing file or a `None` name, it raises `TypeError` and leaves an empty file |
| `History.LoadAfterWrite` | miExecutor_pyside.py:348-369 | writing a list of names without newlines or trailing whitespace and loading it back gives the same list |
| `History.ReloadAfterUpdate` | miExecutor_pyside.py:360-369 | after an update with a storable name, the next load gives exactly the promoted list |
| `History.LoadHistoryOrEmpty` | miExecutor_pyside.py:355-357 | corrected load: same file effect as `loadHistory`; a missing file reads as the empty history |
| `Completion.CandidatesMembers` | miExecutor_pyside.py:234-236 | the filtered list holds each command whose lower-case form contains the lower-cased prefix, as often as it occurs in `commands`, and nothing else |
| `Completion.CandidatesAppend` | miExecutor_pyside.py:234-236 | the filter preserves order: filtering a concatenation is the concatenation of the filtered parts |
| `Completion.Matches` | miExecutor_pyside.py:236 | an empty prefix matches every command; a matching prefix is no longer than the name |
| `Completion.Candidates` | miExecutor_pyside.py:234-236 | the filtered list is no longer than `commands`, and an empty prefix keeps every command |
| `Completion.TopCandidate` | miExecutor_pyside.py:237-240 | `None` exactly when no command matches; otherwise the first matching command in `commands` order |
| `Completion.ResolveCommandCompletion` | miExecutor_pyside.py:233-249 | a non-empty widget completion wins; otherwise the first matching command; `None` exactly when nothing matches |
| `Completion.FilterExample` | miExecutor_pyside.py:233-240 | typing `YL` over `sphere`, `cube`, `cylinder` leaves only `cylinder`, and `cylinder` becomes the current completion |
| `CommandDict.Merged` | miExecutor_pyside.py:335-336 | the merged key set is the union of all the modules' key sets |
| `CommandDict.ModuleDicts` | miExecutor_pyside.py:335-336 | the `<baseName>Dict` attribute of every module, one per base name, in `baseNames` order |
| `CommandDict.MergedLastWins` | miExecutor_pyside.py:335-336 | each key takes its value from the last module in `baseNames` order that defines it |
| `CommandDict.MergeCommandDict` | miExecutor_pyside.py:334-336 | a failing window start-up (`TypeError` for a missing history file, `KeyError` for a history name not in the catalog) is raised before any update; otherwise it fails with `AttributeError` exactly when some module lacks its `<baseName>Dict`, and else returns the fold of `update` over the modules' dictionaries in order; the history file is left as start-up leaves it |
| `CommandDict.MergeBlockedByStaleHistory` | miExecutor_pyside.py:153-158 | with no catalog file and a non-empty history, the window start-up inside `mergeCommandDict` raises `KeyError` |
| `ModuleList.BaseNameOfScript` | miExecutor_pyside.py:32-33 | `splitext(basename(p))[0]` of `<dir>/<stem>.py` is `<stem>`, for a stem with no `/` and not made only of dots |
| `ModuleList.RFind` | miExecutor_pyside.py:32 | `str.rfind` as `basename` and `splitext` use it: -1 when the character is absent, otherwise its position with no later occurrence |
| `ModuleList.BaseName` | miExecutor_pyside.py:32 | `os.path.basename`: a suffix of the path with no `/`, the whole path when it has none |
| `ModuleList.SplitExtRoot` | miExecutor_pyside.py:32 | `os.path.splitext(..)[0]`: a prefix of the name, cut only at a dot, the whole name when it has no dot |
| `ModuleList.BaseNames` | miExecutor_pyside.py:32-33 | entry `i` is `splitext(basename(paths[i]))[0]`, so none holds a `/` |
| `ModuleList.ModuleNames` | miExecutor_pyside.py:37 | one module name per base name, in order: `module.` followed by the base name |
| `ModuleList.RemoveInitEntries` | miExecutor_pyside.py:40-47 | the loop ends in the state that Python's position-based iteration reaches, with `index` and `del` |
| `ModuleList.Sweep` | miExecutor_pyside.py:40-47 | Python's iteration by position over the list being shortened: the result is no longer than the list and holds only entries from it |
| `ModuleList.WithoutInit` | miExecutor_pyside.py:39 | reference list for the comment's intent: only entries without `__init__`, all taken from the input |
| `ModuleList.SweepRemovesOnlyInit` | miExecutor_pyside.py:40-47 | the loop only removes entries, and never removes an entry that lacks `__init__` |
| `ModuleList.SweepSeparated` | miExecutor_pyside.py:40-47 | when no entry repeats and no two neighbours contain `__init__`, the loop removes exactly the `__init__` entries and keeps the order |
| `ModuleList.SweepSkipsNeighbour` | miExecutor_pyside.py:40-43 | two neighbouring `__init__` entries: the second one survives the loop |
| `ModuleList.PrefixedContainsInit` | miExecutor_pyside.py:37-41 | the `module.` prefix neither creates nor hides an `__init__` substring |
| `ModuleList.SweepAligned` | miExecutor_pyside.py:37-47 | the loops over `moduleNames` and `baseNames` delete the same positions, so the lists stay aligned |
| `Launcher.CreateData` | miExecutor_pyside.py:121-163 | a missing history file raises `TypeError`; otherwise start-up succeeds exactly when every history name is a catalog key (else `KeyError`), with the catalog's names as `commands` and the loaded list as history |
| `Launcher.CreateDataCorrected` | miExecutor_pyside.py:153-163 | corrected start-up: with no history file, the session starts with the catalog's names and an empty history |
| `Launcher.UI.constructor` | miExecutor_pyside.py:83-119 | a fresh window uses the command completer, has `executeType` 0, no selection, and `currentCompletion` never assigned |
| `Launcher.UI.ReturnTarget` | miExecutor_pyside.py:285-299 | in mode 1 Return dispatches the highlighted name; in mode 0 it dispatches the name in `currentCompletion`; there is nothing to dispatch exactly when `currentCompletion` is `None` in mode 0, and `AttributeError` exactly when it was never assigned |
| `Launcher.UI.KeyPress` | miExecutor_pyside.py:198-206 | Down switches to the history completer; any other key closes the window; nothing else changes |
| `Launcher.UI.TextEdited` | miExecutor_pyside.py:208-215 | an edit down to the empty text switches back to the command completer; otherwise the completer is kept |
| `Launcher.UI.Highlight` | miExecutor_pyside.py:223-226 | a highlight stores the name as `_selected`, sets `executeType` to 1, and returns the name |
| `Launcher.UI.TextChanged` | miExecutor_pyside.py:228-257 | in command mode `currentCompletion` is the resolved command completion (or `None`); in history mode it is exactly the typed text |
| `Launcher.UI.Dispatch` | miExecutor_pyside.py:283-301 | type 1 dispatches `_selected` whatever `currentCompletion` is; type 0 with `None` closes and sets `lastCommand` to `None`; an unassigned `currentCompletion` or a missing handler raises `AttributeError`, with nothing changed; a handler's `RuntimeError` propagates, with nothing changed; otherwise the window closes and `lastCommand` is the dispatched name |
| `Launcher.UI.SecondaryExecution` | miExecutor_pyside.py:280-304 | as `Dispatch`, followed by the history update: a dispatched name is promoted in the file; `lastCommand` of `None` truncates the file and raises `TypeError` |
| `Launcher.UI.InitialExecution` | miExecutor_pyside.py:259-278 | a handler's `RuntimeError` closes the window and leaves history, `lastCommand` and the hook alone; the repeat hook is registered only for a dispatched name whose history update succeeded; the warning of line 278 is never reached |
| `Launcher.UI.InitialExecutionGuarded` | miExecutor_pyside.py:259-304 | corrected Return: with nothing to dispatch it issues the warning and leaves the history file unchanged; every other case behaves as in `InitialExecution` |

## Left out

- Qt widget construction, layout, window flags, translucency, platform checks, cursor placement, `closeExistingWindow` and `main` (lines 65-104, 165-196, 372-389): these are windowing. `histCompleter.complete()`, which shows the popup, is not modelled.
- The Maya bridge (the `mel.eval` procedure, `repeatLast`, `cmds.warning`): these are host calls. They appear only as the outcomes `RepeatHookSet`, `NoCommandWarning` and `HandlerFailed` of Return.
- Module discovery and loading (`glob`, `__import__`, `reload`, class composition with `type()`, lines 27-28, 50-62, 314-327): this is reflection and file-system access. The globbed paths are an input. The module dictionaries are a map from attribute name to dictionary. The command methods are a table from method name to handler result.
- `mergeCommandDict` builds a full `MainClass()` window to get an empty `commandDict`. Of that window only `createData` is modelled, with its `TypeError` (missing history file) and `KeyError` (history name missing from the catalog), both raised before any update. The widgets it also builds are not modelled. The fold starts from the empty dictionary.
- Building `exec "self._%s()"` from a string is modelled as looking up `"_" + name` in the handler table. A name that is not a Python identifier would make `exec` raise `SyntaxError`, or run other code. The model treats every name without a handler as `AttributeError`. Both errors escape in the same way. One such case is not an error in the source: in history mode the typed text is dispatched as is (line 252), so `cube ` with a trailing space runs `exec "self._cube ()"`, which calls `_cube`, and line 303 then records `cube ` in the history, which the next load reads back as a second `cube`. The model reports `AttributeError` for it and leaves the history unchanged.
- Handlers are modelled as completing or raising `RuntimeError`. Any other exception from a handler, and a handler's effects in Maya, are not modelled.
- JSON loading and the sorted, indented dump of the catalog (lines 131, 340-345): these are a library serializer doing I/O. A missing catalog file is an absent `Catalog` and reads as empty. A malformed file (`ValueError`) is not modelled. The dump is of the dictionary `MergeCommandDict` returns. The catalog's key order is an arbitrary given sequence (`Catalog.names`).
- The `QRegExp` filter of the proxy model in `updateData` (lines 217-221): this is a regex library inside the widget. `TextEdited` keeps only the completer switch.
- Icons (`isabs`, `normpath`, the `":"` resource prefix, lines 141-145, 158-162): these are platform libraries and rendering.
- `lower()` is ASCII-only, and whitespace for `rstrip` is the six ASCII whitespace characters. `str()` of a widget completion with non-ASCII text is not modelled.
- `BaseName` and `SplitExtRoot` use the POSIX separator `/` only.
- Qt decides whether `textEdited` or `textChanged` comes first. Each is its own event method, and the caller chooses the order.
- The attributes `curCompPrefix` and `curCompList` are written but never read elsewhere. They are kept as local values.
- `lastCommand` exists only after the first Return. The model starts it at `None`. Every path that reads it assigns it first.
- File I/O failures (permissions, a full disk) and write buffering are not modelled. The history file is the text it holds after each call.

## Findings

| source | as written | input that shows it | evidently intended | confidence | as-written member | corrected member |
|---|---|---|---|---|---|---|
| miExecutor_pyside.py:286-303 | `updateHistory(self.lastCommand)` runs even when `lastCommand` is `None`. The file is truncated, then `None + "\n"` raises `TypeError`, so the `else` warning at line 278 can never run | type text that matches no command, with an empty widget completion and no highlight, and press Return: the history file is emptied and `TypeError` escapes | no dispatch leaves the history untouched and shows the warning | high; not executed | `Launcher.UI.InitialExecution` | `Launcher.UI.InitialExecutionGuarded` |
| miExecutor_pyside.py:355-357 | `loadHistory` returns `None` after creating a missing file, and `createData` then runs `enumerate(None)` | the first launch, before any history file exists: start-up raises `TypeError` | a missing file reads as an empty history | high; not executed | `Launcher.CreateData` | `Launcher.CreateDataCorrected` |
