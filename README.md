# Directory tree generator — a Dafny model

This project models the core of a Sublime Text plugin that prints a
directory hierarchy as ASCII tree text. The core has two parts:

- **The tree renderer.** `custom_tree` and `_build_tree_recursive` list a
  directory, drop the names to hide, sort what remains, put directories
  before files, and emit one line per entry: `prefix + "+---" + name`. A
  directory's own entries follow its line with the prefix extended by
  `"|   "`, or by `"    "` under the last sibling. A directory that cannot be
  listed gets one marker line, `[權限不足]` for a permission failure and
  `錯誤: <message>` for any other failure, and rendering carries on with its
  siblings. There are two versions of the renderer:
  - `GenTree.py` hides the names in the chosen ignore set and a fixed set
    of system-junk names. The junk table spells one of them `.Thumbs.db`,
    with a leading dot, and the model keeps that spelling. So a Windows
    `Thumbs.db` is not junk and is hidden only when the ignore set names
    it, as the default table does.
  - The older `Main.py` hides every name that starts with a dot.
- **The ignore-list configuration** (`ignore_config.py`). It holds the
  default table of folders to ignore and five named presets. It provides
  the preset lookup with its fallback, the preset-name listing, and
  `add_custom_ignore`, which extends an ignore set in place. `GenTree.py`
  adds the quick-panel dispatch and the parsing of a comma-separated
  custom list.

The filesystem is a finite snapshot (`Snapshot.Entry`). A directory
carries the outcome of listing it: its entries, a permission failure, or
any other failure with its message. The text the renderers produce is
specified by the function `TreeFormat.Lines` and the line layout
`TreeFormat.Text`. Both renderers are methods that build the string with
`+=` in a loop, as the source does. Each method is proved to return
`Text(Lines(filter, listing, prefix))`. The two renderers share this
specification and differ only in their `Filters.Filter`.

Modules, one per file:
- `Str`: Python string helpers (ordering, `strip`, `split(',')`, `join`,
  `basename`, `sorted` of a set).
- `Snapshot`: the filesystem snapshot.
- `Filters`: what each renderer hides.
- `Order`: sorting, filtering and the directories-first split.
- `TreeFormat`: the output specification and its properties.
- `Subtree`: changes to one directory, at any depth, seen in the whole output.
- `IgnoreConfig`: `ignore_config.py`.
- `GenTree`: the command class in `GenTree.py`.
- `MainTree`: the renderer in `Main.py`.

## Model

| member | source | states |
|---|---|---|
| `IgnoreConfig.GetIgnoreList` | ignore_config.py:149-159 | returns a new set object holding the preset's folders, so changing it never changes a table |
| `IgnoreConfig.Lookup` | ignore_config.py:159 | `dict.get`: a value is found exactly when some key equals the name, and the value found is stored under that name |
| `IgnoreConfig.KnownPresetResolves` | ignore_config.py:113-133 | each listed preset name resolves to its own table, never to the fallback |
| `IgnoreConfig.UnknownPresetFallsBack` | ignore_config.py:149-159 | a name the table does not know gives the default table, the same set that `all_common` gives |
| `IgnoreConfig.AllCommonIsDefault` | ignore_config.py:132 | `all_common` resolves to `DEFAULT_IGNORE_FOLDERS` |
| `IgnoreConfig.PresetWithinDefault` | ignore_config.py:7-133 | every preset is a subset of `DEFAULT_IGNORE_FOLDERS`, so `all_common` is the widest |
| `IgnoreConfig.PresetFoldersWithinDefault` | ignore_config.py:149-159 | whatever the name, the lookup result is within the default table |
| `IgnoreConfig.AvailablePresets` | ignore_config.py:161-168 | the preset keys in declaration order: `web_development`, `python_development`, `java_development`, `minimal`, `all_common` |
| `IgnoreConfig.DefaultNamesClean` | ignore_config.py:7-110 | no default name holds a comma or starts or ends with whitespace |
| `IgnoreConfig.OneStringAdded` | ignore_config.py:181-182 | a single string adds one name, its stripped self, when it is not empty, and nothing otherwise; it is not split into characters |
| `IgnoreConfig.AddedMembers` | ignore_config.py:184-186 | a name is added exactly when some non-empty item strips to it |
| `IgnoreConfig.BlankItemAddsEmptyName` | ignore_config.py:185-186 | the emptiness test comes before `strip`, so a whitespace-only item adds the empty name |
| `IgnoreConfig.AddCustomIgnore` | ignore_config.py:170-188 | mutates the given set in place and returns that same object; the new contents are the old contents plus the stripped non-empty items |
| `IgnoreConfig.AddCustomIgnoreTwice` | ignore_config.py:170-188 | two successive calls with the same folders on the same set object leave it exactly as one call does, and both return that object |
| `Str.SortedNames` | GenTree.py:106 | `sorted` of a set: a strictly ascending list holding exactly the set's members |
| `Str.StripEmptyIffBlank` | GenTree.py:124 | `strip` gives the empty string exactly for whitespace-only text |
| `Str.SplitJoin` | GenTree.py:106 | splitting `", ".join(xs)` on commas gives the first name and then each later name with one leading blank |
| `Str.Basename` | GenTree.py:200 | the text after the last `/`: a suffix of the path holding no `/`, preceded by a `/` when shorter than the path |
| `Str.BasenameOfJoin` | GenTree.py:200 | the root line of a path `dir/name` is `name`, for any name without `/` |
| `GenTree.CustomFoldersNames` | GenTree.py:124 | every name read from the custom text is non-empty, already stripped and free of commas |
| `GenTree.CustomFoldersRoundTrip` | GenTree.py:106-124 | parsing `", ".join(xs)` gives back `xs` when no name holds a comma or surrounding whitespace |
| `GenTree.PrefillReadsBack` | GenTree.py:106-125 | parsing the prefilled default list gives back exactly the default set |
| `GenTree.PrefillText` | GenTree.py:106 | the prefill is the set's names in ascending order joined by `", "`, and parsing it gives back exactly that set |
| `GenTree.NothingFromEmptyText` | GenTree.py:121-122 | empty text names no folder |
| `GenTree.CustomNamesAdded` | GenTree.py:124-125 | `add_custom_ignore` adds the parsed names unchanged |
| `GenTree.CustomIgnoreSet` | GenTree.py:119-125 | the custom ignore set starts from a new empty set, not from the defaults, and holds exactly the parsed names |
| `GenTree.GenerateTreeCommand.constructor` | GenTree.py:37-41 | the defaults are a fresh copy of the `all_common` list; the presets are the five keys |
| `GenTree.GenerateTreeCommand.ShouldIgnore` | GenTree.py:271-273 | membership in the ignore set, with an unset ignore set counting as empty; an ignored name is never kept |
| `GenTree.GenerateTreeCommand.OnIgnoreOptionSelected` | GenTree.py:93-117 | `-1` cancels and changes nothing; an index below the preset count loads a fresh copy of that preset; the next index asks for a custom list prefilled with the sorted defaults, which reads back as the default set; any later index selects an empty ignore set |
| `GenTree.GenerateTreeCommand.OnCustomIgnoreDone` | GenTree.py:119-128 | the ignore set becomes a fresh set of exactly the parsed names, labelled `自定義` |
| `GenTree.GenerateTreeCommand.ArrangeEntries` | GenTree.py:212-241 | the loop's result is the specified arrangement: sorted, ignored and junk names dropped, directories then files |
| `GenTree.GenerateTreeCommand.BuildTreeRecursive` | GenTree.py:207-269 | the text built by `+=` equals the specified rendering with the current ignore set |
| `GenTree.GenerateTreeCommand.CustomTree` | GenTree.py:195-203 | at the root, the base name and a newline, then the rendering with the empty prefix; elsewhere, the rendering at the given prefix |
| `GenTree.ProjectExample` | GenTree.py:195-260 | a worked render: `proj` with `src/a.txt`, `node_modules/x.js` and `README.md`, ignoring `node_modules`, prints `proj`, `+---src`, then `+---a.txt` behind one bar unit, then `+---README.md` |
| `Filters.SystemJunkNames` | GenTree.py:215-225 | the junk test hides exactly `.DS_Store`, `.Thumbs.db`, `.directory` and every name starting with `._` |
| `Filters.SystemJunkIsDotName` | GenTree.py:215 | every junk name starts with a dot |
| `Filters.IgnoreSetOnlyRemoves` | GenTree.py:218-225 | an ignored name is never kept; an empty ignore set keeps exactly the non-junk names; a name any ignore set keeps is kept by the empty set |
| `Filters.LargerSetHidesMore` | GenTree.py:218-225 | a larger ignore set only hides more: a name it keeps is kept by every subset |
| `Filters.IgnoreMatchIsExact` | GenTree.py:218-221 | matching is exact: ignoring `*.log` hides an entry named `*.log` but not `app.log` |
| `Filters.NewerKeepsMore` | Main.py:97 | whatever the older renderer keeps, the ignore-aware one keeps with an empty ignore set, and it also keeps dot-names such as `.gitignore` |
| `Order.SplitDirsFirst` | GenTree.py:232-241 | the `dirs`/`files` loop returns the directories in order, followed by the files in order |
| `Order.ArrangeMembers` | GenTree.py:217-241 | the arrangement holds exactly the listed entries that the filter keeps |
| `Order.ArrangeOrder` | GenTree.py:212-241 | all directories come before all files, and each group is in ascending name order |
| `Order.ArrangeStrict` | GenTree.py:212-241 | with distinct names, each group is in strictly ascending order and no name repeats |
| `Order.ArrangeCanonical` | GenTree.py:212 | the arrangement depends only on which entries survive the filter, not on the order `listdir` returned them in |
| `TreeFormat.EntryText` | GenTree.py:248-260 | each entry's text is `prefix + "+---" + name + "\n"`, with the same connector for last and other siblings, followed for a directory by its rendering at the child prefix |
| `TreeFormat.LinesUnder` | GenTree.py:243-260 | every line under a directory at `p` has the prefix `p` followed only by whole indentation units, each four blanks or a bar and three blanks |
| `TreeFormat.LevelIsArrangement` | GenTree.py:243-255 | at a directory's own level, the output names exactly its arranged entries, once each and in order, whatever fails below them |
| `TreeFormat.ShownIffKept` | GenTree.py:218-227 | an entry appears at its directory's level exactly when the filter keeps its name |
| `TreeFormat.OnlyKeptNames` | GenTree.py:218-260 | no entry line anywhere in the output names something the filter drops |
| `TreeFormat.DroppedEntryVanishes` | GenTree.py:218-227 | in the directory being rendered, a dropped entry leaves no trace: the output is as if it and its subtree were not there (at any depth: `Subtree.NestedDroppedVanishes`) |
| `TreeFormat.ListingOrderIrrelevant` | GenTree.py:212 | permuting the listing of the directory being rendered does not change the output (at any depth: `Subtree.NestedOrderIrrelevant`) |
| `Subtree.LinesAlike` | GenTree.py:207-262 | congruence: two directories whose entries agree position by position in name and kind, with subdirectories that render alike, render the same below every prefix |
| `Subtree.ReplaceAlike` | GenTree.py:258-260 | replacing the listing of the directory reached by any path, however deep, by one that renders alike leaves the whole output unchanged below every prefix |
| `Subtree.NestedOrderIrrelevant` | GenTree.py:212 | permuting the listing of any directory in the tree, at any depth, does not change the output |
| `Subtree.NestedDroppedVanishes` | GenTree.py:218-221 | an entry the filter drops, in any directory of the tree, vanishes from the output together with its subtree |
| `TreeFormat.FailedDirectoryBlock` | GenTree.py:255-267 | a directory whose listing fails shows its own line and then exactly one marker line at the child prefix: `[權限不足]` for a permission failure, `錯誤: ` and the message otherwise |
| `TreeFormat.AgreeingFiltersRenderAlike` | Main.py:97 | two filters that agree on every name in a snapshot render it identically |
| `MainTree.ArrangeEntries` | Main.py:95-109 | sorted, dot-names dropped, then directories followed by files |
| `MainTree.BuildTreeRecursive` | Main.py:90-137 | the text built by `+=` equals the specified rendering with every dot-name hidden |
| `MainTree.CustomTree` | Main.py:78-86 | at the root, the base name and a newline, then the rendering with the empty prefix; elsewhere, the rendering at the given prefix |
| `MainTree.SameTextAsNewerRenderer` | Main.py:95-137 | on a snapshot whose only dot-names are junk names, the older renderer prints the same text as the ignore-aware one with an empty ignore set |
| `MainTree.RenderersDifferOnDotFiles` | Main.py:97 | a lone `.gitignore` is hidden by the older renderer and shown by the ignore-aware one |

## Left out

- Sublime Text glue is not modelled: input and quick panels, new views, syntax setting, error messages and `is_enabled`. The quick-panel labels (`str.title()`, the preset descriptions) and the editor header in `show_tree_output`, with its 10-name truncation of the ignore list, are display only.
- `generate_tree`'s attempt to run an external `tree` program through `subprocess`, and `command_exists`, are not modelled. Their output does not come from this code. Only the `custom_tree` fallback is modelled.
- Root-path checks (`os.path.exists`, `os.path.isdir` in `on_path_done` and `on_done`) happen in editor callbacks before any rendering and are not modelled. A root whose listing fails still renders as the base-name line plus one marker line, as the code does.
- The filesystem is a finite snapshot: no symbolic-link cycles, and no changes during a walk. Whether an entry is a directory is fixed by the snapshot (`os.path.isdir` follows links). Exception messages (`str(e)`) are opaque strings.
- `custom_tree`'s outer `except` (GenTree.py:204-205, Main.py:87-88) cannot fire, because `_build_tree_recursive` catches every `Exception` itself. The inner `except PermissionError` around the recursive call (GenTree.py:261-262, Main.py:129-130) cannot fire for the same reason. Neither is modelled.
- A `RecursionError` on a very deep tree is not modelled: the walk has no depth limit.
- `Str.Basename` follows the POSIX `os.path.basename`; the Windows form, which also splits on `\`, is not modelled.
- `GenTree.GenerateTreeCommand.OnIgnoreOptionSelected` requires `index >= -1`. Sublime passes `-1` or an index into the options. Python's negative indexing for an index below `-1` is not modelled.
- `TreeFormat.ListingOrderIrrelevant`, `TreeFormat.DroppedEntryVanishes`, their nested forms in `Subtree` and `Order.ArrangeCanonical` assume the names within one directory are distinct, as they are on a real filesystem.
- `GenerateCurrentDirTreeCommand` (GenTree.py:311-400) is not modelled as a class of its own. It repeats the preset dispatch and the custom-list parse of `GenerateTreeCommand` for the folder of the current file, then hands its ignore set object and label to a new `GenerateTreeCommand` (GenTree.py:388-395), whose rendering is modelled.
- `DEFAULT_IGNORE_EXTENSIONS` (ignore_config.py:136-147) is not used by any code and is not modelled.
- The fallback definitions used when importing `ignore_config` fails (GenTree.py:17-34) duplicate `ignore_config.py` and are not modelled.
- `add_custom_ignore` changes the set it is given; it does not return a copy. The model follows the code: `IgnoreConfig.AddCustomIgnore` modifies its argument and returns it.
