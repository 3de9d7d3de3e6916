# ddu-ui-filer: the item list and the preview session, in Dafny

This project models the state-keeping core of ddu-ui-filer, the file-explorer
UI of the ddu list framework for Vim and Neovim, and proves properties of
that model.

- **The filer's item list** is the `Ui` class of `denops/@ddu-uis/filer.ts`.
  It holds three things. `items` is the flattened tree of items. `viewItems`
  is the list as last drawn. `selectedItems` is the set of selected
  positions.
  - ddu calls `refreshItems`, `expandItem`, `collapseItem` and `searchItem`
    on it.
  - The selection and cursor actions work on it: `toggleAllItems`,
    `toggleSelectItem`, `clearSelectAllItems`, `cursorNext`,
    `cursorPrevious`, `expandItem`, `collapseItem` and `itemAction`.
  - It relies on the helpers `getSortedItems`, `sortItems`, the five
    `sortBy*` comparators, `getItems`, `getIndex` and `collapseItemAction`.
- **The preview session** is the `PreviewUi` class. It exists in two
  versions, and both are modelled.
  - The newer one is `denops/@ddu-uis/filer/preview.ts`. Module
    `FilerPreview` models it.
  - The older one is `denops/@ddu-ui-filer/preview.ts`. It is the one
    `filer.ts` imports. Module `LegacyPreview` models it.
  - Each session records which window shows the preview, which item it
    shows and which buffers it has created. Each decides what one preview
    request does: which buffer name, which lines, which colouring, which
    cursor jump, which buffers to wipe.
  - Module `PreviewVersions` proves where the two versions agree and where
    they differ.

Where the source changes state, so does the model. `Ui` and both `PreviewUi`s
are classes whose fields are the source's fields. A JavaScript `Set<number>`
becomes a duplicate-free `seq<int>` in insertion order (module `IntSets`),
because that order is the order `for ... of` visits. Each state-changing
method states its whole new state. It does so either in terms of a
specification function (`Expanded`, `Collapsed`, `Layout`, `SortItems`,
`PlanBuffer`, ...) or outright. Lemmas prove the properties the source
relies on about those functions.

A few JavaScript details are part of the model:

- Object identity (`===`) is an item's `oid`. `JSON.stringify` equality is
  `SameValue`, which compares every field except `oid`.
- Truthiness is written out: `""` and `0` are false.
- `a ?? b` and `a || b` are kept apart.
- A template literal prints an absent value as `undefined`.
- `Array.prototype.sort` is the stable sort ECMAScript requires, written as
  an insertion sort.
- `String.prototype.replace` with a string pattern replaces only the first
  occurrence, wherever it is.

What the editor answers is passed in as a parameter:

- `getcwd()`, `$HOME` and `strwidth()` become `cwd`, `home` and `strwidth`.
- The identities of the root items `getSortedItems` creates are `rootOids`.
- Cursor positions are the buffer variables in `BufVars`.
- For previews, `bufexists`, `bufnr`, `bufname`, `buflisted`, `getbufline`,
  `Deno.stat` with the file's text, and `bufadd` are the fields of
  `Editor.Env`.
- So are the window the preview-window helper opens (`openedWinId`), the
  buffer current once the preview is drawn (`currentBufnr`), `winnr("$")`
  (`winCount`), whether the host is Neovim (`nvim`), and whether opening
  the preview window throws (`openFails`, older version only).
- The older version opens a buffer preview's window with
  `ddu#ui#ff#_open_preview_window` (`denops/@ddu-ui-filer/preview.ts:216`),
  the helper of another UI. Its terminal path uses
  `ddu#ui#filer#_open_preview_window` (`denops/@ddu-ui-filer/preview.ts:157`).
  Where that other UI is not installed, every older-version buffer preview
  fails at that call and gives `None`. `openFails` stands for this.

## Model

| member | source | states |
|---|---|---|
| FilerUi.Ui.constructor | denops/@ddu-uis/filer.ts:92-95 | A new UI has no items, no drawn list and an empty selection. |
| FilerUi.Ui.GroupBySource | denops/@ddu-uis/filer.ts:949-955 | `sourceItems` has an entry exactly for each source index that has items, and that entry is the items of that source in input order (`Grouped`). |
| FilerUi.Ui.AppendSource | denops/@ddu-uis/filer.ts:957-1008 | One round for a source appends that source's block: its root, then its items sorted, or the root alone for a source without items. |
| FilerUi.Ui.GetSortedItems | denops/@ddu-uis/filer.ts:943-1010 | The list built is `Layout`: each source's block, in the order of `sources`. |
| FilerUi.Ui.RefreshItems | denops/@ddu-uis/filer.ts:98-112 | `items` becomes the `Layout` of the sources. The selection is cleared. The drawn list is unchanged. |
| FilerUi.Ui.ExpandItem | denops/@ddu-uis/filer.ts:115-139 | `items` becomes `Expanded`: the children, sorted, are spliced in after the first entry with the parent's `treePath` and source index, and that entry is overwritten with the parent. The children are appended when there is no such entry. The selection is cleared. |
| FilerUi.Ui.CollapseItem | denops/@ddu-uis/filer.ts:141-170 | `items` becomes `Collapsed`: the run of deeper entries after the matching entry is removed, and the item is written at its position. A missing item changes nothing, and the selection is kept in that case. Otherwise the selection is cleared. |
| FilerUi.Ui.SnapshotView | denops/@ddu-uis/filer.ts:342 | After a redraw, the drawn list is a copy of `items`. |
| FilerUi.Ui.SearchItem | denops/@ddu-uis/filer.ts:172-182 | The cursor moves to row `pos + 1`, where `pos` is the first position holding the identical object. It moves only when `pos > 0`, so a match at the first position never moves it. The result is `None` exactly when the item is first or absent. |
| FilerUi.Ui.GetIndex | denops/@ddu-uis/filer.ts:922-941 | Gives the position in `items` of the object drawn on the cursor row: its first identical occurrence. Gives -1 exactly when there is no cursor row, the row is not a drawn row, or the drawn object is gone from `items`. |
| FilerUi.Ui.GetIndexAfterRedraw | denops/@ddu-uis/filer.ts:342 | Right after a redraw, with distinct identities, cursor row `n` selects position `n - 1`. |
| FilerUi.Ui.GetItems | denops/@ddu-uis/filer.ts:815-828 | With nothing selected, the result is the item under the cursor, or nothing when there is none. Otherwise it is the selected items in selection order. |
| FilerUi.Selected | denops/@ddu-uis/filer.ts:824-827 | Mapping selected positions to items drops positions past the list. With every position in range, the i-th result is the item at the i-th selected position. |
| FilerUi.Ui.ToggleAllItems | denops/@ddu-uis/filer.ts:740-761 | With no items it gives `None` and changes nothing. Otherwise every non-root position is toggled in list order, the selection stays a duplicate-free set of positions, and the result is `Redraw`. |
| FilerUi.ToggleAllMembership | denops/@ddu-uis/filer.ts:748-757 | After the loop has visited a prefix of the positions, a position is selected iff its old membership differs from "visited and not a root". No duplicates arise. |
| FilerUi.ToggleAllTwice | denops/@ddu-uis/filer.ts:740-761 | Toggling all twice gives back the same set of selected positions. |
| FilerUi.Ui.ToggleSelectItem | denops/@ddu-uis/filer.ts:762-779 | With no cursor item it gives `None` and changes nothing. Otherwise the cursor position flips in or out of the selection and the result is `Redraw`. |
| FilerUi.Ui.ClearSelectAllItems | denops/@ddu-uis/filer.ts:496-501 | The selection becomes empty and the result is `Redraw`. |
| FilerUi.Ui.MoveCursor | denops/@ddu-uis/filer.ts:508-563 | The stored cursor row moves by the step, and is written back only when the new row is a drawn row. Nothing else in the buffer variables changes. The result is always `Persist`. |
| FilerUi.Ui.CursorNext | denops/@ddu-uis/filer.ts:508-535 | The code as written: it reads and writes `ddu_ui_ff_cursor_pos` and no other cursor variable. The result is `Persist`. |
| FilerUi.Ui.CursorNextIgnoresFilerCursor | denops/@ddu-uis/filer.ts:513-528 | `cursorNext` as written never changes the item `getIndex` sees. |
| FilerUi.Ui.CursorNextCorrected | denops/@ddu-uis/filer.ts:508-535 | `cursorNext` moving the cursor the rest of the UI reads (`ddu_ui_filer_cursor_pos`). |
| FilerUi.Ui.CursorPrevious | denops/@ddu-uis/filer.ts:536-563 | Moves `ddu_ui_filer_cursor_pos` one row up when that row is drawn. The result is `Persist`. |
| FilerUi.Ui.CursorNextCorrectedMoves | denops/@ddu-uis/filer.ts:508-535 | Below the last row, the corrected `cursorNext` makes `getIndex` see the object drawn on the next row. |
| FilerUi.Ui.CursorNextCorrectedStopsAtEnd | denops/@ddu-uis/filer.ts:525-532 | On the last drawn row, the corrected `cursorNext` does nothing. |
| FilerUi.Ui.CursorPreviousUndoesNext | denops/@ddu-uis/filer.ts:536-563 | `cursorPrevious` undoes a move of the corrected `cursorNext`. |
| FilerUi.Ui.CollapseItemAction | denops/@ddu-uis/filer.ts:830-850 | A collapse of the cursor item is requested iff there is a cursor item and it is a tree. The result is always `None`. |
| FilerUi.Ui.ExpandItemAction | denops/@ddu-uis/filer.ts:564-592 | An expand to `maxLevel` (0 when absent) is requested iff the cursor item is not expanded. A collapse is requested iff the item is expanded, mode is "toggle" and the item is a tree. Nothing is requested otherwise. The result is always `None`. |
| FilerUi.Ui.ItemAction | denops/@ddu-uis/filer.ts:648-671 | The action (default "default") runs on the given items or on `getItems()`. With no items it gives `Persist` and requests nothing; otherwise it asks ddu and gives `None`. |
| IntSets.Remove | denops/@ddu-uis/filer.ts:752-753 | `delete(k)`: the members are the old ones without `k`. No member appears twice. An absent `k` changes nothing. |
| IntSets.RemoveKeepsOrder | denops/@ddu-uis/filer.ts:752-753 | Deleting a member of an insertion-ordered set cuts out exactly its position. The other members keep their order. |
| IntSets.Toggled | denops/@ddu-uis/filer.ts:752-756 | `has(k) ? delete(k) : add(k)`: exactly the membership of `k` flips. No member appears twice. An added index goes last, and a removed one is cut out of its position with the order of the rest kept. |
| IntSets.Added | denops/@ddu-uis/filer/preview.ts:191 | `add(k)`: the members are the old ones and `k`. The old members keep their order. The size grows iff `k` was absent. |
| SortPolicy.MethodOf | denops/@ddu-uis/filer.ts:1016-1025 | The comparator is chosen by the lower-cased `sort` string: `size` iff it is "size", `time` iff it is "time", and so on for each of the four names. Any other string gives `None`. |
| SortPolicy.IsReversed | denops/@ddu-uis/filer.ts:1026 | The order is reversed iff the `sort` string holds an upper-case letter. |
| Strings.ToLowerChangesIffUpper | denops/@ddu-uis/filer.ts:1026 | Lower-casing changes a string iff it holds an upper-case ASCII letter. |
| SortPolicy.Compare | denops/@ddu-uis/filer.ts:1042-1068 | Each comparator answers -1, 0 or 1. |
| SortPolicy.CompareMeaning | denops/@ddu-uis/filer.ts:1042-1064 | -1 means the first key is smaller and 0 means the keys are equal. The keys are `treePath ?? word`, its extension, `size` and `time`, with -1 for a missing value. |
| SortPolicy.CompareAntisymmetric | denops/@ddu-uis/filer.ts:1042-1068 | Swapping the arguments negates the answer. |
| SortPolicy.CompareTransitive | denops/@ddu-uis/filer.ts:1042-1068 | "Sorts no later than" is transitive. |
| SortPolicy.ComparatorConsistent | denops/@ddu-uis/filer.ts:1028-1030 | Each comparator meets what `Array.prototype.sort` needs of a comparator. |
| SortPolicy.StableSortPermutes | denops/@ddu-uis/filer.ts:1028-1030 | The sort is a permutation of its input. |
| SortPolicy.SortedByMethod | denops/@ddu-uis/filer.ts:1028-1030 | `items.sort(sortFunc)` is in ascending order for `sortFunc`. |
| SortPolicy.StableSortStable | denops/@ddu-uis/filer.ts:1028-1030 | Elements that compare equal keep their input order. |
| SortPolicy.SortByNoneKeepsOrder | denops/@ddu-uis/filer.ts:1066-1068 | Sorting with `sortByNone` moves nothing. |
| SortPolicy.Reverse | denops/@ddu-uis/filer.ts:1029 | `reverse()` puts the i-th from the end at position i. |
| SortPolicy.ReverseSorted | denops/@ddu-uis/filer.ts:1029 | Reversing an ascending list gives a descending one. |
| SortPolicy.TreesFirstPartition | denops/@ddu-uis/filer.ts:1032-1035 | Trees then non-trees: every tree precedes every non-tree, and both keep their relative order. |
| SortPolicy.SortItems | denops/@ddu-uis/filer.ts:1012-1039 | `sortItems` is a permutation of its input. |
| SortPolicy.SortItemsAscending | denops/@ddu-uis/filer.ts:1026-1038 | With an all-lower-case `sort` and no `sortTreesFirst`, the result ascends by the named comparator. |
| SortPolicy.SortItemsDescending | denops/@ddu-uis/filer.ts:1026-1038 | With upper case in `sort` and no `sortTreesFirst`, the result descends by the named comparator. |
| SortPolicy.SortItemsTreesFirst | denops/@ddu-uis/filer.ts:1032-1035 | With `sortTreesFirst`, trees precede non-trees. The trees, and the non-trees, are in the order the sort alone gives them. |
| SortPolicy.SortItemsByNone | denops/@ddu-uis/filer.ts:1024-1030 | An unrecognised `sort` string keeps the input order. It reverses that order when `sort` holds upper case. |
| SortPolicy.SortItemsStable | denops/@ddu-uis/filer.ts:1026-1038 | Without reversal or `sortTreesFirst`, items with equal keys keep their input order. |
| Strings.LessTotal | denops/@ddu-uis/filer.ts:1045 | Two different strings are ordered by `<` one way or the other. |
| Strings.LessTransitive | denops/@ddu-uis/filer.ts:1045 | `<` on strings is transitive. |
| Strings.LessAsymmetric | denops/@ddu-uis/filer.ts:1045 | `a < b` and `b < a` never both hold. |
| Strings.Extname | denops/@ddu-uis/filer.ts:1049-1050 | An extension is "" or starts with `.` and holds no `/`. |
| Strings.ReplaceFirst | denops/@ddu-uis/filer.ts:967-970 | Only the first occurrence of the home directory is replaced with `~`. A path without it is unchanged. |
| Strings.FindFirst | denops/@ddu-uis/filer.ts:969 | Gives the first position where the pattern occurs, or `None` when it occurs nowhere. |
| Strings.Split | denops/@ddu-uis/filer/preview.ts:369 | `split("\n")` gives at least one piece, and no piece holds a newline. |
| Strings.JoinSplit | denops/@ddu-uis/filer/preview.ts:285 | Joining the split lines with newlines gives the text back. |
| Strings.JoinedLengthIsLength | denops/@ddu-uis/filer/preview.ts:285 | The length of the joined lines is every line's length plus one per separator. |
| TreeOps.FindTreeIndex | denops/@ddu-uis/filer.ts:120-124 | Gives the first position with the target's `treePath` and source index, or -1 exactly when there is none. |
| TreeOps.ExpandFound | denops/@ddu-uis/filer.ts:127-131 | Expanding a present parent keeps the entries before it, puts the parent and then the children, and shifts the rest by the number of children. |
| TreeOps.ExpandNotFound | denops/@ddu-uis/filer.ts:132-134 | Expanding an absent parent appends the children and leaves every earlier entry in place. |
| TreeOps.SubtreeEnd | denops/@ddu-uis/filer.ts:155-157 | Gives the offset of the first later entry no deeper than the level. Every entry before it is deeper. It gives -1 exactly when every later entry is deeper. |
| TreeOps.CollapseRemovesRun | denops/@ddu-uis/filer.ts:141-170 | Collapse removes exactly the deeper run after the item's position and writes the item there. After the run, the list continues as before. A missing item changes nothing. |
| TreeOps.CollapseLength | denops/@ddu-uis/filer.ts:159-165 | Collapsing shortens the list by the length of the removed run. |
| TreeOps.ExpandCollapseRoundTrip | denops/@ddu-uis/filer.ts:115-170 | Expanding a shown leaf parent with deeper children, then collapsing it, gives back the list. Only the parent's entry changes, to the collapsed item. |
| TreeOps.ExpandedFindsNode | denops/@ddu-uis/filer.ts:120-131 | After expanding, the node is still found at its old position. |
| TreeOps.ExpandedRunEnd | denops/@ddu-uis/filer.ts:155-157 | After expanding with deeper children, the node's run is exactly its old run plus the children. |
| TreeOps.SortedChildrenDeeper | denops/@ddu-uis/filer.ts:125 | Sorting the children keeps every child deeper than the parent. |
| TreeOps.ItemsOf | denops/@ddu-uis/filer.ts:949-955 | A source's group holds only items of that source. |
| TreeOps.ItemsOfComplete | denops/@ddu-uis/filer.ts:949-955 | A source's group holds every item of that source. |
| TreeOps.GroupedSnoc | denops/@ddu-uis/filer.ts:951-954 | Pushing the next item onto its source's group keeps the grouping. |
| TreeOps.RootItemShape | denops/@ddu-uis/filer.ts:957-1001 | A source's root item is at level -1, expanded, a tree, and carries the given identity. Its word, tree path and action path are the source's path, or `cwd` when that is empty. It has no size or time, and its only other field is `matcherKey: "word"`. Its display is `name:root`, with the first occurrence of `$HOME` in `root` replaced by `~` when `$HOME` is not empty and occurs in it. It has two highlights: the name, and the path after it. |
| TreeOps.SourceItems | denops/@ddu-uis/filer.ts:1003-1007 | A block's items are exactly the items of its source. |
| TreeOps.BlockOfGroups | denops/@ddu-uis/filer.ts:972-1007 | The block read off the grouped items is the root followed by the source's group, sorted. |
| TreeOps.LayoutSnoc | denops/@ddu-uis/filer.ts:957-1008 | One more source appends its block. |
| TreeOps.BlockRoots | denops/@ddu-uis/filer.ts:999 | When items are at level 0 or deeper, a block's only level -1 entry is its root. |
| TreeOps.LayoutRoots | denops/@ddu-uis/filer.ts:957-1009 | When items are at level 0 or deeper, the level -1 entries are one root per source, in `sources` order. |
| TreeOps.LayoutSound | denops/@ddu-uis/filer.ts:957-1009 | Refresh adds nothing but roots: every entry is a root of a listed source or an input item of a listed source. |
| TreeOps.LayoutComplete | denops/@ddu-uis/filer.ts:1003-1007 | Refresh drops no input item of a listed source. |
| TreeOps.LayoutLast | denops/@ddu-uis/filer.ts:957-1009 | The last source's block ends the list. |
| TreeOps.IndexOfIdentical | denops/@ddu-uis/filer.ts:175 | Gives the first position holding the identical object, or -1 exactly when there is none. |
| Editor.LeaveCommand | denops/@ddu-uis/filer/preview.ts:40-46 | Leaving the preview window: `close!` iff the preview is not in the UI's own window. Otherwise `enew` when the UI buffer has no name, else `buffer <nr>`. |
| FilerPreview.PreviewUi.constructor | denops/@ddu-uis/filer/preview.ts:26-30 | A new session has no window (-1), no target, no recorded parameters and no buffers. |
| FilerPreview.PreviewUi.Visible | denops/@ddu-uis/filer/preview.ts:83-85 | A closed preview (-1) is never visible. |
| FilerPreview.PreviewUi.IsAlreadyPreviewed | denops/@ddu-uis/filer/preview.ts:74-77 | An item counts as already previewed only while the preview is visible and some target is recorded. |
| FilerPreview.PreviewUi.IsChangedUiParams | denops/@ddu-uis/filer/preview.ts:79-81 | The UI parameters count as changed when none are recorded. Otherwise they count as changed iff they differ from the recorded ones. |
| FilerPreview.PreviewUi.OtherParamChangeNoticed | denops/@ddu-uis/filer/preview.ts:79-81 | A change only in a parameter the preview does not otherwise read, such as `previewWidth`, still counts as changed. The recorded parameters themselves count as unchanged. |
| FilerPreview.PreviewUi.Close | denops/@ddu-uis/filer/preview.ts:32-52 | Only a visible preview that is not the last window is closed: `popup_close` for a floating preview in Vim, else the leave command in the preview window. The window becomes -1 and nothing else changes. |
| FilerPreview.PreviewUi.RemovePreviewedBuffers | denops/@ddu-uis/filer/preview.ts:54-62 | One conditional wipe per recorded buffer, in recording order: the `i`-th command is the `i`-th buffer's wipe. A buffer is wiped only when it exists and is shown in no window. |
| FilerPreview.PreviewUi.Execute | denops/@ddu-uis/filer/preview.ts:64-72 | The command runs in the preview window iff the preview is visible. |
| FilerPreview.PreviewUi.PreviewContentsTerminal | denops/@ddu-uis/filer/preview.ts:199-239 | The terminal runs in the preview window. That window is opened first when it is not visible. The result is `Persist`. |
| FilerPreview.PreviewUi.PreviewContentsBuffer | denops/@ddu-uis/filer/preview.ts:241-310 | A rejected previewer gives `None` and changes nothing. Otherwise the planned buffer is shown in the opened window and the result is `Persist`. |
| FilerPreview.PreviewUi.PreviewContents | denops/@ddu-uis/filer/preview.ts:91-197 | The result is `Persist` iff the item is not already previewed, a callback and a previewer exist, and the previewer is not rejected. Every `None` leaves the state unchanged and sets no highlight and no jump. `Persist` sets the floating highlight and the previewer's jump. `Persist` records the item, the UI parameters and the current buffer (once); afterwards the parameters count as unchanged, and a visible preview counts as already showing the item. |
| FilerPreview.AlreadyPreviewedByValue | denops/@ddu-uis/filer/preview.ts:74-77 | The repeat test compares values, not identities: an equal copy of the previewed item counts as already previewed. |
| FilerPreview.GetPreviewBuffer | denops/@ddu-uis/filer/preview.ts:312-354 | A `useExisting` previewer with an `expr` names that buffer, by name or by number. Every other derived name starts with `ddu-ff:` and comes with `bufnr` of that name. |
| FilerPreview.PreviewBufferNames | denops/@ddu-uis/filer/preview.ts:334-348 | The names by kind: `ddu-ff:<bufname>`, `ddu-ff:no-name:<expr>` for an unnamed buffer, `ddu-ff:<path>` without `expr`, `ddu-ff:preview` for nofile, and `ddu-ff:<word>` for any other kind. In the model the only other kind is a terminal previewer, which never asks for a buffer name. |
| FilerPreview.NoFileNameShared | denops/@ddu-uis/filer/preview.ts:344-345 | All nofile previews share one buffer, whatever the item. |
| FilerPreview.GetContents | denops/@ddu-uis/filer/preview.ts:356-387 | A nofile previewer gives its own lines. A buffer previewer gives the file's lines when `path` is a readable file, else the lines of the existing buffer `expr ?? path`. The result is the error text iff neither is there. |
| FilerPreview.ErrorContentsShape | denops/@ddu-uis/filer/preview.ts:378-384 | The error text is two lines, "Error" first, and only appears when the path is not a readable file. |
| FilerPreview.LookOf | denops/@ddu-uis/filer/preview.ts:284-300 | Colouring happens only while the lines joined by newlines are shorter than the limit (400000 characters by default). Below it, an explicit filetype is set, a buffer previewer without one gets `filetype detect`, and an explicit syntax is set. A filetype is never both set and detected. |
| FilerPreview.PlanBuffer | denops/@ddu-uis/filer/preview.ts:256-300 | A fresh scratch buffer is made iff the contents are the error text, the looked-up buffer does not exist, or the previewer is nofile. The contents just read are written only into such a fresh buffer. An existing buffer that is reused is shown as it is, and the contents read only decide the colouring limit. |
| FilerPreview.FreshBufferCases | denops/@ddu-uis/filer/preview.ts:257-273 | A nofile preview always makes a fresh buffer, and so does a buffer preview with nothing to read, which shows the error text. An existing buffer is reused only for readable content. |
| FilerPreview.JumpOf | denops/@ddu-uis/filer/preview.ts:389-405 | Searches for `pattern` when given and moves to `lineNr` when given. It centres the view iff either is given. |
| FilerPreview.JumpCentresIffMoves | denops/@ddu-uis/filer/preview.ts:389-405 | The view is centred exactly when the jump moves. A terminal previewer never jumps. |
| FilerPreview.FloatingHighlight | denops/@ddu-uis/filer/preview.ts:156-166 | `&winhighlight` is set iff the preview floats in Neovim. It uses `floating ?? NormalFloat` and `floatingBorder ?? FloatBorder`. |
| LegacyPreview.PreviewUi.constructor | denops/@ddu-ui-filer/preview.ts:28-32 | A new session has no window, no terminal buffer, no target and no buffers. |
| Items.OtherFieldsDistinguish | denops/@ddu-uis/filer/preview.ts:74-77 | Items that differ only in fields nothing here reads, such as `matcherKey` or `data`, are not the same value. |
| LegacyPreview.PreviewUi.SameTarget | denops/@ddu-ui-filer/preview.ts:72-79 | The same target needs an open window (a positive id) and a recorded target. With no target recorded, or the window closed (-1), nothing is the same target. |
| LegacyPreview.PreviewUi.Close | denops/@ddu-ui-filer/preview.ts:34-58 | The window is left only when it is open and not the last window. A wipe of every recorded listed buffer is issued in every case, in recording order. The record is kept. |
| LegacyPreview.PreviewUi.WipeRecorded | denops/@ddu-ui-filer/preview.ts:51-57 | One `buflisted` wipe per recorded buffer, in recording order: the `i`-th command is the `i`-th buffer's wipe. |
| Editor.CommandsForAt | denops/@ddu-ui-filer/preview.ts:51-57 | A loop issuing one command per recorded buffer puts each buffer's own command at that buffer's position. |
| LegacyPreview.PreviewUi.PreviewContentsTerminal | denops/@ddu-ui-filer/preview.ts:148-193 | A window is opened only when there is none. A recorded terminal buffer is wiped and forgotten, and none is wiped otherwise. The result is `Persist`. |
| LegacyPreview.PreviewUi.PreviewContentsBuffer | denops/@ddu-ui-filer/preview.ts:195-263 | A rejected previewer, or a failure to open the missing window, gives `None` and changes nothing. Otherwise the plan is shown in the window that is open or was opened. |
| LegacyPreview.PreviewUi.PreviewContents | denops/@ddu-ui-filer/preview.ts:60-146 | The same target previewed again closes the preview and gives `None`. Otherwise the result is `Persist` iff a previewer came back and it succeeded. `None` changes nothing else and sets no highlight and no jump. `Persist` sets the floating highlight and the previewer's jump, and records the item and the current buffer (once). A terminal preview records the UI buffer as the terminal buffer and wipes the previous one. A successful preview with an open window counts as the same target. |
| LegacyPreview.GetPreviewBufferName | denops/@ddu-ui-filer/preview.ts:265-284 | Every name starts with `ddu-filer:`, followed by the kind's suffix. |
| LegacyPreview.LegacyBufferNames | denops/@ddu-ui-filer/preview.ts:265-284 | The names by kind: `ddu-filer:<bufname>`, `ddu-filer:no-name:<expr>`, `ddu-filer:<path>`, and `ddu-filer:<word>` for every other kind. |
| LegacyPreview.GetContents | denops/@ddu-ui-filer/preview.ts:286-310 | A nofile previewer gives its own lines. A buffer previewer gives the listed buffer `expr` first, else the readable file at `path`, else nothing. |
| LegacyPreview.LookOf | denops/@ddu-ui-filer/preview.ts:237-248 | Colouring happens only while the lines joined by newlines are shorter than the limit (200000 characters by default). Below it, an explicit syntax is set, or else a buffer previewer's filetype is detected, never both. `&filetype` is never set. |
| LegacyPreview.PlanBuffer | denops/@ddu-ui-filer/preview.ts:210-260 | An existing buffer of the derived name is shown untouched. A new one gets the contents and the colouring. `previewwindow` is set iff `previewSplit` is not "no". |
| LegacyPreview.JumpOf | denops/@ddu-ui-filer/preview.ts:312-323 | Searches for `pattern` when given. The view is centred only together with a `lineNr` cursor move. |
| LegacyPreview.FloatingHighlight | denops/@ddu-ui-filer/preview.ts:126-133 | `&winhighlight` is set iff the preview floats, in Vim as in Neovim, to `Normal:` + `floating ?? NormalFloat`. |
| PreviewVersions.NamesAgreeUpToPrefix | denops/@ddu-ui-filer/preview.ts:265-284 | Apart from nofile and `useExisting`, both versions derive the same name after their prefixes. |
| PreviewVersions.NoFileNamesDiffer | denops/@ddu-uis/filer/preview.ts:344-345 | For nofile, the newer version uses one shared `ddu-ff:preview` buffer. The older one uses `ddu-filer:<word>` per item. |
| PreviewVersions.ContentsPreferenceDiffers | denops/@ddu-ui-filer/preview.ts:291-304 | With a listed `expr` buffer and a readable file, the newer version shows the file and the older one the buffer. |
| PreviewVersions.ContentsAgreeOnFiles | denops/@ddu-uis/filer/preview.ts:366-370 | With a readable file and no listed `expr` buffer, both versions show the file's lines. |
| PreviewVersions.MissingContentsDiffer | denops/@ddu-uis/filer/preview.ts:376-385 | With nothing to read, the newer version shows the two error lines and the older one an empty buffer. |

## Behaviour worth knowing

- Refresh, expand and collapse clear the selection. They do not prune it to
  the items still present.
- Collapse of a missing item changes nothing, and keeps the selection.
- Collapse does not walk up to an expanded ancestor. The `collapseItem`
  action asks ddu to collapse the cursor item only when it is a tree.
- `searchItem` moves the cursor only when the item is found past the first
  position.
- There is no `fileFilter` and no `displayRoot` parameter: every source
  always gets a root.
- Expanding has no grouped mode, and returns no count.
- The older version's terminal preview records its `bufnr` argument as
  `terminalBufnr` (`denops/@ddu-ui-filer/preview.ts:141`). `filer.ts:701`
  passes the UI's own buffer there, not the terminal's. So the next terminal
  preview issues `if buflisted(<UI buffer>) | silent bwipeout! <UI buffer>`
  (`denops/@ddu-ui-filer/preview.ts:181-186`). The model keeps this as
  written: `LegacyPreview.PreviewUi.PreviewContents` states both the
  recording and the wipe.

## Left out

- Rendering is left out: `redraw`, `initBuffer`, `initOptions`,
  `setDefaultParams`, highlights of selected rows, `statusline`, window
  layout, `ddu#ui#filer#_open_preview_window`, and the fixed window options
  the previews set. Only the result the UI state depends on is modelled: the
  drawn-list snapshot, the window id the helper returns, and the buffer that
  is current afterwards.
- Actions that only forward to ddu or to the editor are left out, because
  they keep no state: `checkItems`, `chooseAction`, `getItem`,
  `getSelectedItems`, `inputAction`, `quit`, `refreshItems` (which only
  returns `RefreshItems`), `updateOptions`, and the `visible`, `winId` and
  `quit` entry points.
- The `preview` action's forwarding (`filer.ts:672-704`) is left out. It
  passes arguments in the order of neither session's `previewContents`, so
  each session is modelled through its own signature.
- `ensure`/`ensureObject` throwing on malformed action parameters is left
  out, as is `errorException`.
- The `onPreview` callback is left out, as is `win_gotoid` back to the
  prior window.
- A `readFileSync` failure on an existing file is left out, along with the
  exception message shown in its place.
- A previewer kind other than buffer, nofile and terminal is left out. Such
  a kind falls to the word-based name.
- Terminal start options (`cwd`, `term_kill`) and the editor's terminal
  job are left out.
- The older version's `try`/`catch` around the terminal wipe is left out.
  The wipe is modelled as succeeding.
- `LegacyPreview.PreviewUi.PreviewContents`: a throw when opening a terminal
  window is not modelled, only one when opening a buffer preview window
  (`openFails`).
- Strings are sequences of Dafny characters. UTF-16 code units,
  `strwidth` (a parameter here) and non-ASCII case mapping are left out.
- `extname` comes from Deno's standard path module, which is not part of
  this model. `Strings.Extname` follows that module's documented POSIX
  behaviour.
- Numbers (`size`, `time`, buffer and window numbers) are integers. Floating
  point values and `NaN` are left out.
- `sortItems` sorts `items` in place, and the caller's array is reordered
  as a side effect. The model sorts a value and leaves that aliasing out.
- Item fields nothing here reads (`matcherKey`, `data`, `action` keys
  beyond `isDirectory` and `path`) are kept as one list of key and JSON
  text, `Item.others`. Value comparisons (`JSON.stringify` equality) see
  them, but nothing interprets them.
- UI parameters only rendering reads (`floatingBorder`, `focus`,
  `previewCol`, `previewFloatingBorder`, `previewFloatingZindex`,
  `previewHeight`, `previewRow`, `previewWidth`, `search`, `splitDirection`,
  `statusline`, `winCol`, `winHeight`, `winRow`, `winWidth`) are kept the
  same way, as `Params.others`. `isChangedUiParams` sees a change in any of
  them, but nothing interprets them.
- The previewers' preview context (`col`, `row`, `width`, `height`, `split`)
  only matters to rendering, so it is left out.
- Applying `previewWindowOptions` to the preview window is left out. The list is kept only as a parameter value.

## Findings

| source | as written | input that shows it | evidently intended | confidence | as-written member | corrected member |
|---|---|---|---|---|---|---|
| denops/@ddu-uis/filer.ts:508-535 | `cursorNext` reads and writes the buffer variable `ddu_ui_ff_cursor_pos`. `cursorPrevious` and `getIndex` use `ddu_ui_filer_cursor_pos`. | Cursor on row 1 of a two-row list, so `ddu_ui_filer_cursor_pos` is `[b, 1, 0, 0]`. `cursorNext` leaves that variable alone, so `getIndex` still sees row 1. | Move `ddu_ui_filer_cursor_pos` one row down, the mirror of `cursorPrevious`. | medium, not executed | FilerUi.Ui.CursorNext (CursorNextIgnoresFilerCursor) | FilerUi.Ui.CursorNextCorrected (CursorNextCorrectedMoves, CursorNextCorrectedStopsAtEnd, CursorPreviousUndoesNext) |
