/** The filer UI's item-list state: the flattened tree (`items`), the list as
    last drawn (`viewItems`) and the selected indices (`selectedItems`), with
    the operations ddu calls on it and the actions a user invokes. */
module FilerUi {
  import opened Wrappers
  import opened Strings
  import opened Items
  import opened SortPolicy
  import opened TreeOps
  import opened IntSets

  /** The buffer variable `getIndex` and `cursorPrevious` read: the cursor as
      `[bufnum, lnum, col, off]`. */
  const FilerCursorKey: string := "ddu_ui_filer_cursor_pos"
  /** The buffer variable `cursorNext` reads and writes. */
  const FfCursorKey: string := "ddu_ui_ff_cursor_pos"

  /** The UI buffer's variables that hold cursor positions. */
  type BufVars = map<string, seq<int>>

  /** `getbufvar(bufnr, key, [])` */
  function CursorPos(vars: BufVars, key: string): seq<int>
  {
    if key in vars then vars[key] else []
  }

  /** The action parameters `expandItem` reads. */
  datatype ExpandItemParams = ExpandItemParams(mode: Option<string>, maxLevel: Option<int>)

  /** The action parameters `itemAction` reads. */
  datatype DoActionParams = DoActionParams(items: Option<seq<Item>>, name: Option<string>, params: Option<map<string, string>>)

  /** The request an action hands to ddu: `ddu#redraw_tree` with "expand" or
      "collapse", or `ddu#item_action`. */
  datatype Request =
    | NoRequest
    | ExpandTree(item: Item, maxLevel: int)
    | CollapseTree(item: Item)
    | DoItemAction(name: string, items: seq<Item>, params: map<string, string>)

  /** The selection after `toggleAllItems` has visited positions `0 .. n-1`:
      every non-root position toggled, in order. */
  function ToggleAllUpTo(s: seq<int>, items: seq<Item>, n: nat): seq<int>
    requires n <= |items|
  {
    if n == 0 then s
    else
      var t := ToggleAllUpTo(s, items, n - 1);
      if items[n - 1].level >= 0 then Toggled(t, n - 1) else t
  }

  /** After visiting `0 .. n-1`, an index is selected iff it was selected
      before, flipped when it is a visited non-root position. Duplicates never
      appear. */
  lemma {:induction false} ToggleAllMembership(s: seq<int>, items: seq<Item>, n: nat)
    requires n <= |items|
    ensures forall k :: k in ToggleAllUpTo(s, items, n) <==>
      (k in s) != (0 <= k < n && items[k].level >= 0)
    ensures NoDup(s) ==> NoDup(ToggleAllUpTo(s, items, n))
  {
    if n > 0 {
      ToggleAllMembership(s, items, n - 1);
    }
  }

  /** Toggling everything twice gives back the same selected set (possibly
      in a different order). */
  lemma ToggleAllTwice(s: seq<int>, items: seq<Item>)
    ensures forall k :: k in ToggleAllUpTo(ToggleAllUpTo(s, items, |items|), items, |items|) <==> k in s
  {
    ToggleAllMembership(s, items, |items|);
    ToggleAllMembership(ToggleAllUpTo(s, items, |items|), items, |items|);
  }

  /** `[...selectedItems].map(i => items[i]).filter(item => item)`: an index
      past the list yields `undefined`, which the filter drops. */
  function Selected(items: seq<Item>, sel: seq<int>): (r: seq<Item>)
    ensures |r| <= |sel|
    ensures InRange(sel, |items|) ==> |r| == |sel| && forall j :: 0 <= j < |sel| ==> r[j] == items[sel[j]]
  {
    if sel == [] then []
    else
      (if 0 <= sel[0] < |items| then [items[sel[0]]] else []) + Selected(items, sel[1..])
  }

  /** Every index is a position of a list of length `n`. */
  predicate InRange(sel: seq<int>, n: int)
  {
    forall j :: 0 <= j < |sel| ==> 0 <= sel[j] < n
  }

  lemma MembersInRange(sel: seq<int>, n: int)
    requires forall x :: x in sel ==> 0 <= x < n
    ensures InRange(sel, n)
  {
    forall j | 0 <= j < |sel| ensures 0 <= sel[j] < n {
      assert sel[j] in sel;
    }
  }

  /** Splicing after position `i` and then overwriting `i`. */
  lemma SpliceThenWrite<T>(s: seq<T>, i: nat, ins: seq<T>, y: T)
    requires i < |s|
    ensures (s[..i + 1] + ins + s[i + 1..])[i := y] == s[..i] + [y] + ins + s[i + 1..]
  {
    var a := s[..i + 1] + ins + s[i + 1..];
    var b := s[..i] + [y] + ins + s[i + 1..];
    assert |a[i := y]| == |b|;
    forall k | 0 <= k < |b| ensures a[i := y][k] == b[k] {
      if k < i {
      } else if k == i {
      } else if k < i + 1 + |ins| {
        assert a[k] == ins[k - i - 1];
      } else {
        assert a[k] == s[k - |ins|];
      }
    }
  }

  /** Identities are distinct: no object appears twice in the list. */
  predicate DistinctOids(s: seq<Item>)
  {
    forall i, j :: 0 <= i < j < |s| ==> s[i].oid != s[j].oid
  }

  class Ui {
    var items: seq<Item>
    var viewItems: seq<Item>
    var selectedItems: seq<int>

    /** The selection is a set of positions of `items`: every operation that
        replaces `items` clears it, and only positions of `items` are added. */
    ghost predicate Valid()
      reads this
    {
      NoDup(selectedItems) && InRange(selectedItems, |items|)
    }

    constructor()
      ensures items == [] && viewItems == [] && selectedItems == []
      ensures Valid()
    {
      items := [];
      viewItems := [];
      selectedItems := [];
    }

    /** The first loop of `getSortedItems`: `sourceItems`, each source's
        items in input order, with no entry for a source without items. */
    method GroupBySource(all: seq<Item>) returns (groups: map<int, seq<Item>>)
      ensures Grouped(groups, all)
    {
      groups := map[];
      var i := 0;
      while i < |all|
        invariant 0 <= i <= |all|
        invariant Grouped(groups, all[..i])
      {
        var item := all[i];
        var group := if item.sourceIndex in groups then groups[item.sourceIndex] else [];
        GroupedSnoc(groups, all, i);
        groups := groups[item.sourceIndex := group + [item]];
        i := i + 1;
      }
      assert all[..i] == all;
    }

    /** One round of the second loop of `getSortedItems`: push the source's
        root, then its sorted items when it has any. */
    method AppendSource(ret: seq<Item>, source: SourceInfo, groups: map<int, seq<Item>>, all: seq<Item>,
                        params: Params, cwd: string, home: string, strwidth: string -> int, oid: nat)
      returns (r: seq<Item>)
      requires Grouped(groups, all)
      ensures r == ret + Block(source, all, params, cwd, home, strwidth, oid)
    {
      // The root item, built from the source directory (the working
      // directory when empty) with the home directory shown as `~`.
      var root := RootItem(source, params, cwd, home, strwidth, oid);
      r := ret + [root];
      BlockOfGroups(source, groups, all, params, cwd, home, strwidth, oid);
      if source.index in groups {
        r := r + SortItems(params, groups[source.index]);
        Assoc(ret, [root], SortItems(params, groups[source.index]));
      }
    }

    /** `getSortedItems`: group the items by source, then for each source in
        order its root and its items sorted. `cwd`, `home` and `strwidth`
        stand for `getcwd()`, `$HOME` and the editor's `strwidth()`;
        `rootOids` are the identities of the roots it creates. */
    method GetSortedItems(sources: seq<SourceInfo>, params: Params, all: seq<Item>, cwd: string,
                          home: string, strwidth: string -> int, rootOids: seq<nat>) returns (ret: seq<Item>)
      requires |rootOids| == |sources|
      ensures ret == Layout(sources, all, params, cwd, home, strwidth, rootOids)
    {
      var groups := GroupBySource(all);
      ret := [];
      assert sources[..0] == [] && rootOids[..0] == [];
      for j := 0 to |sources|
        invariant ret == Layout(sources[..j], all, params, cwd, home, strwidth, rootOids[..j])
      {
        ret := AppendSource(ret, sources[j], groups, all, params, cwd, home, strwidth, rootOids[j]);
        LayoutSnoc(sources, all, params, cwd, home, strwidth, rootOids, j);
      }
      assert sources[..|sources|] == sources && rootOids[..|sources|] == rootOids;
    }

    /** `refreshItems`: the list is rebuilt from the sources and the
        selection cleared. */
    method RefreshItems(sources: seq<SourceInfo>, params: Params, all: seq<Item>, cwd: string,
                        home: string, strwidth: string -> int, rootOids: seq<nat>)
      requires |rootOids| == |sources|
      modifies this
      ensures items == Layout(sources, all, params, cwd, home, strwidth, rootOids)
      ensures selectedItems == [] && viewItems == old(viewItems)
      ensures Valid()
    {
      items := GetSortedItems(sources, params, all, cwd, home, strwidth, rootOids);
      selectedItems := [];
    }

    /** `expandItem`: the sorted children spliced in after the parent (or
        appended when the parent is not shown); the selection is cleared. */
    method ExpandItem(params: Params, parent: Item, children: seq<Item>)
      modifies this
      ensures items == Expanded(old(items), parent, SortItems(params, children))
      ensures selectedItems == [] && viewItems == old(viewItems)
      ensures Valid()
    {
      var index := FindTreeIndex(items, parent);
      var insertItems := SortItems(params, children);
      if index >= 0 {
        items := items[..index + 1] + insertItems + items[index + 1..];
        SpliceThenWrite(old(items), index, insertItems, parent);
        items := items[index := parent];
      } else {
        items := items + insertItems;
      }
      selectedItems := [];
    }

    /** `collapseItem`: the item's descendant run removed and the item
        written at its position, selection cleared; nothing changes when the
        item is not shown. */
    method CollapseItem(item: Item)
      requires Valid()
      modifies this
      ensures items == Collapsed(old(items), item)
      ensures FindTreeIndex(old(items), item) >= 0 ==> selectedItems == []
      ensures FindTreeIndex(old(items), item) < 0 ==> selectedItems == old(selectedItems)
      ensures viewItems == old(viewItems)
      ensures Valid()
    {
      var startIndex := FindTreeIndex(items, item);
      if startIndex < 0 {
        return;
      }
      var endIndex := SubtreeEnd(items, startIndex, item.level);
      if endIndex < 0 {
        items := items[..startIndex + 1];
      } else {
        items := items[..startIndex + 1] + items[startIndex + endIndex + 1..];
      }
      assert items[startIndex := item] == Collapsed(old(items), item);
      items := items[startIndex := item];
      selectedItems := [];
    }

    /** The list snapshot `redraw` takes once the buffer is written. */
    method SnapshotView()
      modifies this
      ensures viewItems == items
      ensures items == old(items) && selectedItems == old(selectedItems)
    {
      viewItems := items;
    }

    /** `searchItem`: the row the cursor is moved to, when the identical item
        is after the first position; the first row and a missing item leave
        the cursor alone. */
    function SearchItem(item: Item): (r: Option<int>)
      reads this
      ensures r.Some? ==> 2 <= r.value <= |items| && Identical(items[r.value - 1], item)
      ensures r.Some? ==> forall k :: 0 <= k < r.value - 1 ==> !Identical(items[k], item)
      ensures r.None? <==> (|items| > 0 && Identical(items[0], item)) ||
                           forall k :: 0 <= k < |items| ==> !Identical(items[k], item)
    {
      var pos := IndexOfIdentical(items, item);
      if pos > 0 then Some(pos + 1) else None
    }

    /** `getIndex`: the position in `items` of the object drawn on the cursor
        row, -1 when there is no cursor, the row is outside the drawn list or
        the drawn object is no longer in `items`. */
    function GetIndex(vars: BufVars): (r: int)
      reads this
      ensures -1 <= r < |items|
      ensures var pos := CursorPos(vars, FilerCursorKey);
        r >= 0 ==> |pos| >= 2 && 1 <= pos[1] <= |viewItems| && Identical(items[r], viewItems[pos[1] - 1])
      ensures var pos := CursorPos(vars, FilerCursorKey);
        r >= 0 ==> forall k :: 0 <= k < r ==> !Identical(items[k], viewItems[pos[1] - 1])
      ensures var pos := CursorPos(vars, FilerCursorKey);
        r == -1 <==> |pos| < 2 || !(1 <= pos[1] <= |viewItems|) ||
                     forall k :: 0 <= k < |items| ==> !Identical(items[k], viewItems[pos[1] - 1])
    {
      var pos := CursorPos(vars, FilerCursorKey);
      // A one-element position has no row: `viewItems[NaN]` is undefined.
      if |pos| < 2 then -1
      else if 1 <= pos[1] <= |viewItems| then IndexOfIdentical(items, viewItems[pos[1] - 1])
      else -1
    }

    /** Right after a redraw, with distinct identities, the cursor row `n`
        selects position `n - 1`. */
    lemma GetIndexAfterRedraw(vars: BufVars)
      requires viewItems == items && DistinctOids(items)
      requires var pos := CursorPos(vars, FilerCursorKey);
        |pos| >= 2 && 1 <= pos[1] <= |items|
      ensures GetIndex(vars) == CursorPos(vars, FilerCursorKey)[1] - 1
    {
    }

    /** `getItems`: the item under the cursor when nothing is selected,
        otherwise the selected items in selection order. */
    function GetItems(vars: BufVars): (r: seq<Item>)
      reads this
      ensures selectedItems == [] ==> (r == [] <==> GetIndex(vars) < 0)
      ensures selectedItems == [] && GetIndex(vars) >= 0 ==> r == [items[GetIndex(vars)]]
      ensures selectedItems != [] && Valid() ==>
        |r| == |selectedItems| && forall j :: 0 <= j < |r| ==> r[j] == items[selectedItems[j]]
    {
      if |selectedItems| == 0 then
        var idx := GetIndex(vars);
        if idx < 0 then [] else [items[idx]]
      else
        Selected(items, selectedItems)
    }

    /** `toggleAllItems`: every non-root position flips its selection; an
        empty list is left alone and asks for no redraw. */
    method ToggleAllItems() returns (flag: ActionFlag)
      requires Valid()
      modifies this
      ensures flag == (if |items| == 0 then NoAction else Redraw)
      ensures selectedItems == ToggleAllUpTo(old(selectedItems), items, |items|)
      ensures items == old(items) && viewItems == old(viewItems)
      ensures Valid()
    {
      if |items| == 0 {
        return NoAction;
      }
      var idx := 0;
      while idx < |items|
        invariant 0 <= idx <= |items|
        invariant items == old(items) && viewItems == old(viewItems)
        invariant selectedItems == ToggleAllUpTo(old(selectedItems), items, idx)
      {
        if items[idx].level >= 0 {
          selectedItems := Toggled(selectedItems, idx);
        }
        idx := idx + 1;
      }
      ToggleAllMembership(old(selectedItems), items, |items|);
      MembersInRange(selectedItems, |items|);
      flag := Redraw;
    }

    /** `toggleSelectItem`: the position under the cursor flips its
        selection; nothing happens without one. */
    method ToggleSelectItem(vars: BufVars) returns (flag: ActionFlag)
      requires Valid()
      modifies this
      ensures GetIndex(vars) == old(GetIndex(vars))
      ensures old(GetIndex(vars)) < 0 ==> flag == NoAction && selectedItems == old(selectedItems)
      ensures old(GetIndex(vars)) >= 0 ==> flag == Redraw && selectedItems == Toggled(old(selectedItems), old(GetIndex(vars)))
      ensures items == old(items) && viewItems == old(viewItems)
      ensures Valid()
    {
      var idx := GetIndex(vars);
      if idx < 0 {
        return NoAction;
      }
      selectedItems := Toggled(selectedItems, idx);
      MembersInRange(selectedItems, |items|);
      flag := Redraw;
    }

    /** `clearSelectAllItems` */
    method ClearSelectAllItems() returns (flag: ActionFlag)
      modifies this
      ensures flag == Redraw && selectedItems == []
      ensures items == old(items) && viewItems == old(viewItems)
      ensures Valid()
    {
      selectedItems := [];
      flag := Redraw;
    }

    /** Move the cursor row stored under `key` by `delta`, storing it only
        when the new row is a drawn row. The action always returns Persist. */
    function MoveCursor(vars: BufVars, key: string, delta: int): (r: (ActionFlag, BufVars))
      reads this
      ensures r.0 == Persist
      ensures r.1 == vars || (
        var pos := CursorPos(vars, key);
        |pos| >= 2 && 0 < pos[1] + delta <= |viewItems| && r.1 == vars[key := pos[1 := pos[1] + delta]])
      ensures var pos := CursorPos(vars, key);
        |pos| >= 2 && 0 < pos[1] + delta <= |viewItems| ==> CursorPos(r.1, key)[1] == pos[1] + delta
    {
      var pos := CursorPos(vars, key);
      // A one-element position has no row: `undefined + 1` is NaN.
      if |pos| < 2 then (Persist, vars)
      else
        var row := pos[1] + delta;
        if 0 < row <= |viewItems| then (Persist, vars[key := pos[1 := row]]) else (Persist, vars)
    }

    /** `cursorNext` as written: it reads and writes `ddu_ui_ff_cursor_pos`. */
    function CursorNext(vars: BufVars): (r: (ActionFlag, BufVars))
      reads this
      ensures r.0 == Persist
      ensures forall k :: k in r.1 && k != FfCursorKey ==> k in vars && r.1[k] == vars[k]
    {
      MoveCursor(vars, FfCursorKey, 1)
    }

    /** The cursor `getIndex` reads is never moved by `cursorNext` as written. */
    lemma CursorNextIgnoresFilerCursor(vars: BufVars)
      ensures GetIndex(CursorNext(vars).1) == GetIndex(vars)
    {
      assert CursorPos(CursorNext(vars).1, FilerCursorKey) == CursorPos(vars, FilerCursorKey);
    }

    /** `cursorNext` working on the cursor the rest of the UI reads. */
    function CursorNextCorrected(vars: BufVars): (r: (ActionFlag, BufVars))
      reads this
      ensures r.0 == Persist
      ensures forall k :: k in r.1 && k != FilerCursorKey ==> k in vars && r.1[k] == vars[k]
    {
      MoveCursor(vars, FilerCursorKey, 1)
    }

    /** `cursorPrevious` */
    function CursorPrevious(vars: BufVars): (r: (ActionFlag, BufVars))
      reads this
      ensures r.0 == Persist
      ensures forall k :: k in r.1 && k != FilerCursorKey ==> k in vars && r.1[k] == vars[k]
    {
      MoveCursor(vars, FilerCursorKey, -1)
    }

    /** The corrected `cursorNext` moves the item `getIndex` sees to the one
        drawn on the next row, unless the cursor is on the last row. */
    lemma CursorNextCorrectedMoves(vars: BufVars)
      requires var pos := CursorPos(vars, FilerCursorKey);
        |pos| >= 2 && 1 <= pos[1] < |viewItems|
      ensures GetIndex(CursorNextCorrected(vars).1) ==
        IndexOfIdentical(items, viewItems[CursorPos(vars, FilerCursorKey)[1]])
    {
    }

    /** On the last row the corrected `cursorNext` does nothing. */
    lemma CursorNextCorrectedStopsAtEnd(vars: BufVars)
      requires var pos := CursorPos(vars, FilerCursorKey);
        |pos| >= 2 && pos[1] == |viewItems|
      ensures CursorNextCorrected(vars).1 == vars
    {
    }

    /** `cursorPrevious` undoes the corrected `cursorNext` whenever the latter
        moved. */
    lemma CursorPreviousUndoesNext(vars: BufVars)
      requires var pos := CursorPos(vars, FilerCursorKey);
        |pos| >= 2 && 1 <= pos[1] < |viewItems|
      ensures CursorPrevious(CursorNextCorrected(vars).1).1 == vars
    {
      var pos := CursorPos(vars, FilerCursorKey);
      var next := CursorNextCorrected(vars).1;
      assert CursorPos(next, FilerCursorKey) == pos[1 := pos[1] + 1];
      assert pos[1 := pos[1] + 1][1 := pos[1]] == pos;
      assert vars[FilerCursorKey := pos] == vars;
    }

    /** `collapseItemAction`: ask ddu to collapse the tree item under the
        cursor; nothing for no item or a non-tree item. */
    function CollapseItemAction(vars: BufVars): (r: (ActionFlag, Request))
      reads this
      ensures r.0 == NoAction
      ensures r.1.CollapseTree? <==> GetIndex(vars) >= 0 && items[GetIndex(vars)].isTree
      ensures r.1.CollapseTree? ==> r.1.item == items[GetIndex(vars)]
      ensures !r.1.CollapseTree? ==> r.1 == NoRequest
    {
      var index := GetIndex(vars);
      if index < 0 then (NoAction, NoRequest)
      else
        var closeItem := items[index];
        if !closeItem.isTree then (NoAction, NoRequest)
        else (NoAction, CollapseTree(closeItem))
    }

    /** The `expandItem` action: ask ddu to expand the unexpanded item under
        the cursor to `maxLevel` (0 when absent); an expanded item is
        collapsed in "toggle" mode and left alone otherwise. */
    function ExpandItemAction(vars: BufVars, params: ExpandItemParams): (r: (ActionFlag, Request))
      reads this
      ensures r.0 == NoAction
      ensures r.1.ExpandTree? <==> GetIndex(vars) >= 0 && !items[GetIndex(vars)].expanded
      ensures r.1.ExpandTree? ==> r.1.item == items[GetIndex(vars)] && r.1.maxLevel == params.maxLevel.GetOr(0)
      ensures r.1.CollapseTree? <==>
        GetIndex(vars) >= 0 && items[GetIndex(vars)].expanded && params.mode == Some("toggle") &&
        items[GetIndex(vars)].isTree
      ensures r.1.CollapseTree? ==> r.1 == CollapseItemAction(vars).1
      ensures !r.1.DoItemAction?
    {
      var idx := GetIndex(vars);
      if idx < 0 then (NoAction, NoRequest)
      else
        var item := items[idx];
        if item.expanded then
          if params.mode == Some("toggle") then CollapseItemAction(vars) else (NoAction, NoRequest)
        else
          (NoAction, ExpandTree(item, params.maxLevel.GetOr(0)))
    }

    /** The `itemAction` action: run the named action (default "default") on
        the given items, or on `getItems()`; no items returns Persist and
        requests nothing. */
    function ItemAction(vars: BufVars, params: DoActionParams): (r: (ActionFlag, Request))
      reads this
      ensures var targets := if params.items.Some? then params.items.value else GetItems(vars);
        (targets == [] ==> r == (Persist, NoRequest)) &&
        (targets != [] ==> r == (NoAction, DoItemAction(params.name.GetOr("default"), targets, params.params.GetOr(map[]))))
    {
      var targets := if params.items.Some? then params.items.value else GetItems(vars);
      if |targets| == 0 then (Persist, NoRequest)
      else (NoAction, DoItemAction(params.name.GetOr("default"), targets, params.params.GetOr(map[])))
    }
  }
}
