# Tree-select prompt, modelled in Dafny

This project models `TreeSelectPrompt`, the interactive terminal prompt of
clack-tree-select that shows a file-tree-like hierarchy, lets the user expand
and collapse directories, move a cursor, select one or many values (a
directory's selection cascading to everything below it) and narrow the view
with an inline fuzzy search.

The model has three layers:

- **Values.** `Tree` defines the canonical tree (`Node`: a leaf, or a
  directory with a children list), the raw input a caller may pass
  (`RawItem`), the rows of a flattened view (`FlatItem`), the normaliser, the
  two pre-order flattenings (expansion-aware and full), lookup by value,
  toggling one directory and expanding or collapsing every directory.
  `Fuzzy` defines the whitespace-removing, lower-casing `Squash` and the
  matching relation (the query is a subsequence of the squashed name).
  `Search` defines the visible rows; `Selection` the effect of toggling one
  value and of toggling everything.
- **Steps.** `PromptModel` puts the prompt's whole state into a `Snapshot`
  and describes the `key` handler (`KeyStep`) and the `cursor` handler
  (`CursorStep`) as functions of it, with the invariant `Consistent`: the
  flat tree is the expansion-aware flattening of the tree, search is on
  exactly when the query is non-empty, and the query holds only the
  characters the handler appends.
- **Imperative code.** `Walks` holds the source's recursive loops over
  sibling lists (`flattenAll`, the `filter` with the greedy `isFuzzyMatch`,
  `findAndToggle`, `findItem`, `checkExpanded`, `getAllValues`,
  `expandRecursive`/`collapseRecursive`), each proved to compute the
  recursive definition it walks. `TreeSelect.TreeSelectPrompt` is the prompt
  object itself: a class with the source's fields, whose methods update them
  in place and are proved to make exactly the `PromptModel` step, keeping
  `Valid`.

Where the code and its design description differ, the model follows the
code: `deselectAll` empties the selection whatever the selection mode (only
`toggleSelectAll` guards it); `areAllItemsSelected` compares the length of
the selection with the number of tree values and checks that every tree value
is selected, which is not set equality when values repeat; backspace edits
the query only while search is on and the query is non-empty.

## Model

| member | source | states |
|---|---|---|
| Fuzzy.IsFuzzyMatch | src/core/tree-select.ts:263-274 | the greedy `indexOf` scan answers true exactly when the query occurs, in order, in the name with whitespace removed and lower-cased (the subsequence relation `FuzzyMatch`) |
| Fuzzy.IndexOf | src/core/tree-select.ts:269 | `indexOf(c, from)` is -1 exactly when no position at or after `from` holds `c`, and otherwise the first such position |
| Fuzzy.SquashClean | src/core/tree-select.ts:264 | a squashed string holds no whitespace and no upper-case ASCII letter |
| Fuzzy.SquashIdempotent | src/core/tree-select.ts:249 | squashing an already squashed string changes nothing (what `Search.SquashedQuerySameView` rests on) |
| Fuzzy.EmptyQueryMatches | src/core/tree-select.ts:265 | the empty query matches every name |
| Fuzzy.SubstringMatches | src/core/tree-select.ts:262 | every contiguous piece of the squashed name matches the name |
| Tree.FlattenOpen | src/core/tree-select.ts:198-220 | the rows `rebuildFlatTree` pushes: pre-order, each node's row at its level, an open directory's children one level deeper right after it; characterised by `TreeFacts.FlattenOpenSubseq`, `FlattenOpenLevels` and `RowsFollowDepth` |
| Tree.FlattenAll | src/core/tree-select.ts:223-244 | the rows `buildFullFlatTree` pushes: pre-order over every node, ignoring `open`; characterised by `TreeFacts.FlattenAllValues`, `FlattenAllLevels` and `RowsFollowDepth` |
| Tree.AllValues | src/core/tree-select.ts:390-399 | every value of the tree in pre-order, as `getAllValues` collects them; `TreeFacts.FlattenAllValues` ties it to the full flattening |
| Tree.FindItem | src/core/tree-select.ts:302-311 | the node `findItem` returns for a value, or none; `TreeFacts.FindItemIsFirstInPreorder` ties it to a linear search over the pre-order nodes |
| Tree.ToggleDir | src/core/tree-select.ts:278-289 | the tree after `findAndToggle` and whether it found a directory; `TreeFacts.ToggleDirSpec` states it on the full flattening |
| Tree.SetOpenAll | src/core/tree-select.ts:361-385 | the tree after `expandAll` (true) or `collapseAll` (false); `TreeFacts.SetOpenAllFlat` states it on the full flattening |
| Tree.AllDirsExpanded | src/core/tree-select.ts:408-419 | the answer of `areAllDirectoriesExpanded`; `TreeFacts.AllDirsExpandedFlat` states it on the full flattening |
| Tree.NormalizeTree | src/core/tree-select.ts:176-178 | normalising maps the list element by element: one node per input element |
| TreeFacts.NormalizeKeepsValues | src/core/tree-select.ts:176-196 | normalising keeps every value of the input, in pre-order |
| TreeFacts.NormalizeDefaults | src/core/tree-select.ts:180-196 | a raw value becomes a closed leaf carrying it, named by its string form; a record keeps its value, is a directory exactly when it has a children list, which is normalised in turn, gets `name || String(value)` and `open || false` |
| TreeFacts.NormalizedNamesSettled | src/core/tree-select.ts:204 | after normalisation every name is final, so the flattenings' `name || String(value)` is the node's own name |
| TreeFacts.NormalizeExportRoundTrip | src/core/tree-select.ts:189-195 | a settled canonical tree written back as records normalises to itself |
| TreeFacts.NormalizeIdempotent | src/core/tree-select.ts:176-196 | normalising the output of normalisation gives it back |
| TreeFacts.FlattenOpenSubseq | src/core/tree-select.ts:198-244 | the rows of `rebuildFlatTree` are an in-order selection of the rows of `buildFullFlatTree` |
| TreeFacts.FlattenAllValues | src/core/tree-select.ts:223-244 | the full flattening's values are exactly the tree's values in pre-order (`getAllValues`) |
| TreeFacts.OpenValuesSubseq | src/core/tree-select.ts:198-220 | the values shown without a search are an in-order selection of all values |
| TreeFacts.FlattenExpanded | src/core/tree-select.ts:214 | when every directory is open the two flattenings coincide |
| TreeFacts.FlattenOpenLevels | src/core/tree-select.ts:200-216 | the rows respect a pre-order level shape: they start at the given level, never go above it, and step one level deeper only right after an open directory row |
| TreeFacts.FlattenAllLevels | src/core/tree-select.ts:225-239 | the same pre-order level shape for the full flattening, stepping deeper only right after a directory row |
| TreeFacts.RowsFollowDepth | src/core/tree-select.ts:198-244 | `level` is the depth, in both flattenings: row k shows the k-th node listed in pre-order, the rows right after a directory the flattening descends into are exactly its children's rows one level deeper, and every top-level node's row, after the rows of the nodes before it, is at the starting level |
| TreeFacts.FindItemIsFirstInPreorder | src/core/tree-select.ts:302-311 | `findItem` returns the first node in pre-order carrying the value |
| TreeFacts.FindItemFound | src/core/tree-select.ts:302-311 | `findItem` succeeds exactly for the values of the tree and returns a node carrying the value |
| TreeFacts.ToggleDirSpec | src/core/tree-select.ts:278-289 | `findAndToggle` reports success exactly when the full flattening has a directory row with the value, flips the open flag of the first such row and of nothing else, and leaves the tree untouched otherwise |
| TreeFacts.ToggleDirSkeleton | src/core/tree-select.ts:276-294 | toggling a directory changes open flags only |
| TreeFacts.SetOpenAllFlat | src/core/tree-select.ts:361-385 | `expandAll`/`collapseAll` set the open flag of every directory row of the full flattening and change no other row |
| TreeFacts.SetOpenAllSkeleton | src/core/tree-select.ts:361-385 | expanding or collapsing everything changes open flags only |
| TreeFacts.ExpandAllExpands | src/core/tree-select.ts:361-372 | after `expandAll`, `areAllDirectoriesExpanded` holds |
| TreeFacts.CollapseAllCollapses | src/core/tree-select.ts:374-385 | after `collapseAll` every directory at every depth is closed |
| TreeFacts.SetOpenAllTwice | src/core/tree-select.ts:361-385 | of two bulk expand/collapse operations only the last matters |
| TreeFacts.SetOpenAllUnchanged | src/core/tree-select.ts:361-385 | expanding a fully expanded tree, or collapsing a fully collapsed one, changes nothing |
| TreeFacts.AllDirsExpandedFlat | src/core/tree-select.ts:408-419 | `areAllDirectoriesExpanded` holds exactly when every directory row of the full flattening is open |
| TreeFacts.ToggleExpandAllResult | src/core/tree-select.ts:441-447 | `toggleExpandAll` collapses everything when every directory is open and expands everything otherwise |
| TreeFacts.ToggleExpandAllTwice | src/core/tree-select.ts:441-447 | on a fully collapsed tree two `toggleExpandAll`s give the tree back |
| TreeFacts.SkeletonValues | src/core/tree-select.ts:390-399 | trees differing only in open flags have the same `getAllValues` |
| TreeFacts.SkeletonFindItem | src/core/tree-select.ts:302-311 | trees differing only in open flags answer every `findItem` alike: success, kind of node and the values below it |
| Search.SearchFilter | src/core/tree-select.ts:253-259 | the rows the search filter keeps, for an already squashed query; `Search.SearchFilterSpec` characterises it |
| Search.VisibleView | src/core/tree-select.ts:247-260 | the rows `getVisibleFlatTree` returns: the flat tree when the squashed query is empty, else the filtered full flattening; `Search.NoSearchShowsFlatTree` and `SearchShowsMatches` characterise it |
| Search.SearchFilterSpec | src/core/tree-select.ts:253-259 | the filter keeps exactly the rows that pass (directory-only check, then fuzzy match), in their order, each as many times as the input has it and no other row at all |
| Search.SquashedQuerySameView | src/core/tree-select.ts:247-250 | the view depends on the query only through its squashed form: an already squashed query shows the same rows as the raw one |
| Search.NoSearchShowsFlatTree | src/core/tree-select.ts:247-250 | a query that squashes to nothing shows the prompt's flat tree as it is |
| Search.SearchShowsMatches | src/core/tree-select.ts:247-259 | during a search the visible rows are an in-order selection of the full flattening, holding exactly its rows that pass the directory-only check and match the squashed query, each as many times as the full flattening has it, whatever is expanded |
| Search.DirectoryOnlySearch | src/core/tree-select.ts:252-257 | with `searchDirectoriesOnly` a search never shows a file row |
| Search.SubstringIsShown | test/tree-select.search.test.ts:23-45 | a row of the whole tree, inside a closed directory or not, whose squashed name contains the squashed query is shown |
| Search.SearchValuesInOrder | src/core/tree-select.ts:253-259 | the values of the search results appear in the tree's pre-order |
| Selection.Toggled | src/core/tree-select.ts:296-359 | the selection after `toggleSelection`, with `selectChildren`/`deselectChildren`; `Selection.SelectCascade`, `DeselectCascade` and `SingleSelectionKept` characterise it |
| Selection.AllSelected | src/core/tree-select.ts:421-439 | the answer of `areAllItemsSelected`; `Selection.AllSelectedIsPermutation` characterises it |
| Selection.ToggledAll | src/core/tree-select.ts:449-457 | the selection after `toggleSelectAll`; `Selection.ToggleAllFlips` characterises it |
| Selection.SelectCascade | src/core/tree-select.ts:326-349 | selecting in multi-selection mode keeps the old selection first and in order, appends the value, then adds exactly the missing values below its node: every value appended after the value is new to the selection and appended once, whatever the old selection holds |
| Selection.DeselectCascade | src/core/tree-select.ts:320-359 | deselecting removes every copy of the value and of every value below its node, keeping every copy of each other value, in order and duplicate-free |
| Selection.SingleSelectionKept | src/core/tree-select.ts:313-337 | in single-selection mode the selection stays at most one non-directory value: a new leaf replaces it, the selected leaf clears it, a directory leaves it unchanged |
| Selection.SelectThenDeselect | src/core/tree-select.ts:296-359 | toggling a value twice removes it and its descendants; when none of those was selected before, the selection is back where it started |
| Selection.ToggledIgnoresExpansion | src/core/tree-select.ts:296-337 | toggling a selection does not depend on which directories are open |
| Selection.AllSelectedIsPermutation | src/core/tree-select.ts:421-439 | when the tree's values are distinct, "all selected" means the selection is a permutation of them |
| Selection.ToggleAllFlips | src/core/tree-select.ts:449-457 | in multi-selection mode `toggleSelectAll` flips the "all selected" answer (an empty tree stays all selected) |
| Selection.ToggleAllTwice | src/core/tree-select.ts:449-457 | toggling everything twice from "all selected" gives all values, and from anything else on a non-empty tree gives the empty selection |
| Selection.AllSelectedIgnoresExpansion | src/core/tree-select.ts:421-457 | "all selected" and `toggleSelectAll` do not depend on which directories are open |
| Walks.FlattenAllOnto | src/core/tree-select.ts:225-241 | the `flattenAll` loop appends exactly the full flattening to what was already pushed |
| Walks.BuildFullFlatTree | src/core/tree-select.ts:223-244 | `buildFullFlatTree` returns the full pre-order flattening |
| Walks.FilterRows | src/core/tree-select.ts:253-259 | the filter loop, calling the greedy matcher, returns the rows the filter relation keeps |
| Walks.FindAndToggle | src/core/tree-select.ts:278-289 | the recursive loop returns the tree with the first matching directory flipped and whether there was one |
| Walks.FindItemIn | src/core/tree-select.ts:302-311 | the recursive loop returns the first node in pre-order carrying the value, or none |
| Walks.CheckExpanded | src/core/tree-select.ts:409-417 | the recursive loop answers whether every directory at every depth is open |
| Walks.GetAllValues | src/core/tree-select.ts:390-399 | the recursive loop returns every value in pre-order |
| Walks.SetOpenRecursive | src/core/tree-select.ts:362-369 | the recursive loop sets the open flag of every directory and changes nothing else |
| PromptModel.Start | src/core/tree-select.ts:85-104 | the state the constructor leaves; `PromptModel.StartConsistent` states its invariant |
| PromptModel.Visible | src/core/tree-select.ts:247-260 | the rows `getVisibleFlatTree` returns in a state; `PromptModel.VisibleFollowsSearch` characterises it |
| PromptModel.KeyStep | src/core/tree-select.ts:112-173 | the effect of the `key` listener on the state; the key lemmas below characterise it branch by branch |
| PromptModel.CursorStep | src/core/tree-select.ts:459-494 | the effect of `handleCursor` on the state; the cursor lemmas below characterise it key by key |
| PromptModel.StartConsistent | src/core/tree-select.ts:85-104 | the constructor's state keeps the invariant and shows the expansion-aware flattening of the normalised tree |
| PromptModel.VisibleFollowsSearch | src/core/tree-select.ts:247-260 | in a consistent state the view is the flat tree exactly when search is off and the search results over the whole tree when it is on |
| PromptModel.VisibleRowsInTree | src/core/tree-select.ts:247-260 | every visible row is a row of the full flattening |
| PromptModel.KeyKeepsConsistent | src/core/tree-select.ts:112-173 | the key handler keeps the invariant |
| PromptModel.CursorKeepsConsistent | src/core/tree-select.ts:459-494 | the cursor handler keeps the invariant |
| PromptModel.ShiftEToggleExpand | src/core/tree-select.ts:114-118 | Shift+E collapses a fully expanded tree and otherwise expands it fully (then the view is the full flattening), keeping values and structure, and changes nothing but the tree and its flat view |
| PromptModel.ShiftAToggleSelect | src/core/tree-select.ts:119-121 | Shift+A flips "all selected" in multi-selection mode, does nothing in single-selection mode, and changes only the selection |
| PromptModel.KeysLeaveTreeAndSelection | src/core/tree-select.ts:112-173 | apart from the two shortcuts the key handler never changes the tree, the flat tree or the selection |
| PromptModel.NotSearchableIgnoresKeys | src/core/tree-select.ts:125 | a prompt that is not searchable ignores every key but the two shortcuts |
| PromptModel.SpaceNeverSearches | src/core/tree-select.ts:127-130 | neither the space key nor a typed space changes the query |
| PromptModel.TypingAppends | src/core/tree-select.ts:161-172 | a typed non-space ASCII character with code 32 to 126 is appended to the query, turns search on and moves the cursor to row 0; any other single character changes nothing |
| PromptModel.BackspaceDropsLast | src/core/tree-select.ts:132-142 | in every state, backspace while searching with a non-empty query drops its last character, stays in search mode exactly when something is left and puts the cursor on row 0; otherwise it changes nothing |
| PromptModel.BackspaceUndoesTyping | src/core/tree-select.ts:132-142 | backspace right after typing a character restores the query and the search flag, with the cursor on row 0 |
| PromptModel.EscapeLeavesSearch | src/core/tree-select.ts:144-159 | escape during a search clears it, puts the cursor on row 0, turns a cancellation back into an active prompt and shows the flat tree again; outside a search it changes nothing |
| PromptModel.CursorNeedsActive | src/core/tree-select.ts:460-461 | an inactive prompt, or an event without a key, ignores the cursor event |
| PromptModel.CursorKeepsSearch | src/core/tree-select.ts:459-494 | the cursor handler never touches the query, the search flag or the lifecycle state |
| PromptModel.CursorStaysInView | src/core/tree-select.ts:467-472 | down moves the cursor to the smaller of the next row and the last visible row (row 0 when there are none), up never goes above row 0, and both change only the cursor |
| PromptModel.UpDownRoundTrip | src/core/tree-select.ts:467-472 | inside the visible rows up then down, and down then up, give the state back |
| PromptModel.RightLeftToggleDirectory | src/core/tree-select.ts:473-482 | right on a closed directory row, or left on an open one, flips exactly the first directory row with that value in the full flattening, changes open flags only and nothing outside the tree and its flat view |
| PromptModel.RightLeftElsewhere | src/core/tree-select.ts:473-482 | right and left on any other row, or past the last row, change nothing |
| PromptModel.SpaceTogglesSelection | src/core/tree-select.ts:483-492 | space toggles the selection of the row under the cursor, with the cascade, and changes nothing else; in single-selection mode a directory row is left alone |
| PromptModel.SingleSelectionStaysSingle | src/core/tree-select.ts:483-492 | in single-selection mode no cursor event selects a second value or a directory |
| PromptModel.KeysKeepSingleSelection | src/core/tree-select.ts:112-173 | in single-selection mode no key event selects a second value or a directory: Shift+A does nothing, Shift+E changes open flags only, and every other key leaves tree and selection alone |
| TreeSelect.TreeSelectPrompt.constructor | src/core/tree-select.ts:85-104 | the new prompt holds the normalised tree, the option defaults (multi-selection, searchable, not directory-only), the initial values, cursor 0, no search, and its flat tree; it is `Valid` |
| TreeSelect.TreeSelectPrompt.RebuildFlatTree | src/core/tree-select.ts:198-220 | the flat tree becomes the expansion-aware flattening of the tree |
| TreeSelect.TreeSelectPrompt.Flatten | src/core/tree-select.ts:200-218 | the recursive `flatten` closure pushes exactly the expansion-aware flattening of its items onto the flat tree |
| TreeSelect.TreeSelectPrompt.GetVisibleFlatTree | src/core/tree-select.ts:247-260 | returns the view of the current state |
| TreeSelect.TreeSelectPrompt.ToggleDirectory | src/core/tree-select.ts:276-294 | flips the first matching directory and rebuilds the flat tree when there is one; otherwise changes nothing |
| TreeSelect.TreeSelectPrompt.ToggleSelection | src/core/tree-select.ts:296-337 | the selection becomes the toggled selection, with its cascade and single-selection rules |
| TreeSelect.TreeSelectPrompt.SelectChildren | src/core/tree-select.ts:339-349 | appends, in pre-order, every value below that is not selected yet |
| TreeSelect.TreeSelectPrompt.DeselectChildren | src/core/tree-select.ts:351-359 | removes every value below from the selection, keeping the rest in order |
| TreeSelect.TreeSelectPrompt.ExpandAll | src/core/tree-select.ts:361-372 | opens every directory and rebuilds the flat tree |
| TreeSelect.TreeSelectPrompt.CollapseAll | src/core/tree-select.ts:374-385 | closes every directory and rebuilds the flat tree |
| TreeSelect.TreeSelectPrompt.SelectAll | src/core/tree-select.ts:387-402 | in multi-selection mode the selection becomes every value in pre-order; otherwise nothing changes |
| TreeSelect.TreeSelectPrompt.DeselectAll | src/core/tree-select.ts:404-406 | the selection becomes empty |
| TreeSelect.TreeSelectPrompt.AreAllDirectoriesExpanded | src/core/tree-select.ts:408-419 | answers whether every directory at every depth is open |
| TreeSelect.TreeSelectPrompt.AreAllItemsSelected | src/core/tree-select.ts:421-439 | answers the "all selected" test: multi-selection mode, equal length, every tree value selected |
| TreeSelect.TreeSelectPrompt.ToggleExpandAll | src/core/tree-select.ts:441-447 | makes the Shift+E step |
| TreeSelect.TreeSelectPrompt.ToggleSelectAll | src/core/tree-select.ts:449-457 | makes the Shift+A step |
| TreeSelect.TreeSelectPrompt.OnKey | src/core/tree-select.ts:112-173 | the `key` listener makes exactly the `KeyStep` step and keeps `Valid` |
| TreeSelect.TreeSelectPrompt.HandleCursor | src/core/tree-select.ts:459-494 | the `cursor` listener makes exactly the `CursorStep` step and keeps `Valid` |

## Left out

- Rendering, the help text, the icons, and the `required`, `showHelp`, `icons`, `cursorAt`, `validate`, `render`, `signal`, `input` and `output` options: they only affect output or the base prompt, not the state modelled here.
- The base `Prompt` class: event dispatch, its own key handling and its lifecycle transitions are not part of this model; `state` is a field the handlers read, and only escape's revert from cancel to active is modelled. The wrapper in `src/tree-select.ts` is not part of this model.
- `getState` is not a separate member: its fields are the `Snapshot` the handlers are specified on.
- The `parent` and `originalItem` fields of a flat row: they are references back into the tree, used only by rendering.
- Update in place and aliasing: `toggleDirectory`, `expandAll` and `collapseAll` flip `open` on shared node objects, and `selectChildren` pushes into the selection array; the model reassigns the `tree` and `value` fields with the new sequence, so sharing of node objects between the tree, flat rows and a caller's input is not captured.
- `typeof` and `'value' in item` inspection of the input: the caller's elements are a tagged `RawItem`; a non-string primitive element (which the code treats as a record without a value, named `"undefined"`) and `null` are not modelled.
- `String(value)`: a parameter `show` of the normaliser, since conversion of arbitrary values is not modelled.
- Fuzzy.ToLower: maps only the ASCII letters A–Z; full Unicode lower-casing is not modelled.
- Strings are sequences of characters, not UTF-16 code units, so `char.length === 1` and `charCodeAt` are read on one character; surrogate pairs are not modelled.
- The `if (!this.value) this.value = []` guards and `?? ''` on the query: the model's selection and query are always defined.
- An absent key is `None`, an absent key name the empty string and an absent `char` `None`; `handleCursor`'s missing key is the empty string.
- The cursor is an unbounded natural number; JavaScript's number range is not modelled.
- Value comparison: the model compares values with Dafny's `==`. The source uses `===`, `!==` and `indexOf` (strict equality, src/core/tree-select.ts:280, 298, 304, 322, 354) and `includes` (SameValueZero, src/core/tree-select.ts:342, 438). So objects compare by reference, and `NaN` is never found by `===` or `indexOf` but is found by `includes`; neither difference is modelled.
