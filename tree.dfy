/** The list surgery behind the filer's `expandItem`, `collapseItem` and
    `refreshItems`, as functions of the flattened item list. The `Ui` class
    (module FilerUi) performs these updates on its `items` field. */
module TreeOps {
  import opened Wrappers
  import opened Strings
  import opened Items
  import opened SortPolicy

  /** The lookup both tree operations use: same `treePath`, same `__sourceIndex`. */
  predicate SameNode(a: Item, b: Item)
  {
    a.treePath == b.treePath && a.sourceIndex == b.sourceIndex
  }

  /** `items.findIndex(item => item.treePath === target.treePath &&
      item.__sourceIndex === target.__sourceIndex)` */
  function FindTreeIndex(items: seq<Item>, target: Item): (r: int)
    ensures -1 <= r < |items|
    ensures r >= 0 ==> SameNode(items[r], target)
    ensures r >= 0 ==> forall k :: 0 <= k < r ==> !SameNode(items[k], target)
    ensures r == -1 <==> forall k :: 0 <= k < |items| ==> !SameNode(items[k], target)
  {
    FindTreeIndexFrom(items, target, 0)
  }

  /** The scan behind `FindTreeIndex`, from position `i` on. */
  function FindTreeIndexFrom(items: seq<Item>, target: Item, i: nat): (r: int)
    requires i <= |items|
    requires forall k :: 0 <= k < i ==> !SameNode(items[k], target)
    ensures -1 <= r < |items|
    ensures r >= 0 ==> SameNode(items[r], target)
    ensures r >= 0 ==> forall k :: 0 <= k < r ==> !SameNode(items[k], target)
    ensures r == -1 <==> forall k :: 0 <= k < |items| ==> !SameNode(items[k], target)
    decreases |items| - i
  {
    if i == |items| then -1
    else if SameNode(items[i], target) then i
    else FindTreeIndexFrom(items, target, i + 1)
  }

  /** The `items` `expandItem` leaves: the sorted children spliced in after the
      parent's position, whose entry becomes `parent`; or appended at the end
      when no item matches the parent. */
  function Expanded(items: seq<Item>, parent: Item, children: seq<Item>): seq<Item>
  {
    var i := FindTreeIndex(items, parent);
    if i >= 0 then items[..i] + [parent] + children + items[i + 1..]
    else items + children
  }

  /** Expanding a parent that is present: the list grows by the children,
      position `i` holds `parent`, the children follow it, and every other
      entry keeps its value, shifted past the inserted run. */
  lemma ExpandFound(items: seq<Item>, parent: Item, children: seq<Item>)
    requires FindTreeIndex(items, parent) >= 0
    ensures var i := FindTreeIndex(items, parent);
      var r := Expanded(items, parent, children);
      |r| == |items| + |children| &&
      r[i] == parent &&
      (forall k :: 0 <= k < i ==> r[k] == items[k]) &&
      (forall k :: 0 <= k < |children| ==> r[i + 1 + k] == children[k]) &&
      (forall k :: i < k < |items| ==> r[k + |children|] == items[k])
  {
    SpliceIndexes(items, FindTreeIndex(items, parent), parent, children);
  }

  lemma SpliceSlices<T>(s: seq<T>, i: nat, x: T, c: seq<T>)
    requires i < |s|
    ensures var r := s[..i] + [x] + c + s[i + 1..];
      r[..i] == s[..i] && r[i + 1 + |c|..] == s[i + 1..]
  {
  }

  lemma SpliceIndexes<T>(s: seq<T>, i: nat, x: T, c: seq<T>)
    requires i < |s|
    ensures var r := s[..i] + [x] + c + s[i + 1..];
      |r| == |s| + |c| &&
      r[i] == x &&
      (forall k :: 0 <= k < i ==> r[k] == s[k]) &&
      (forall k :: 0 <= k < |c| ==> r[i + 1 + k] == c[k]) &&
      (forall k :: i < k < |s| ==> r[k + |c|] == s[k])
  {
  }

  /** Expanding a parent that is absent appends the children and leaves every
      existing entry where it was. */
  lemma ExpandNotFound(items: seq<Item>, parent: Item, children: seq<Item>)
    requires FindTreeIndex(items, parent) < 0
    ensures var r := Expanded(items, parent, children);
      |r| == |items| + |children| && r[..|items|] == items && r[|items|..] == children
  {
  }

  /** `items.slice(start + 1).findIndex(item => item.__level <= level)`: the
      offset, after `start`, of the first item at `level` or shallower. */
  function SubtreeEnd(items: seq<Item>, start: nat, level: int): (r: int)
    requires start < |items|
    ensures -1 <= r < |items| - start - 1
    ensures r >= 0 ==> items[start + 1 + r].level <= level
    ensures r >= 0 ==> forall k :: start < k < start + 1 + r ==> items[k].level > level
    ensures r == -1 <==> forall k :: start < k < |items| ==> items[k].level > level
    decreases |items| - start
  {
    if start + 1 == |items| then -1
    else if items[start + 1].level <= level then 0
    else
      var r := SubtreeEnd(items, start + 1, level);
      if r < 0 then -1 else r + 1
  }

  /** The `items` `collapseItem` leaves: the run after the matching position
      up to the first item no deeper than `item` (or to the end) removed, and
      `item` written at that position; unchanged when nothing matches. */
  function Collapsed(items: seq<Item>, item: Item): seq<Item>
  {
    var start := FindTreeIndex(items, item);
    if start < 0 then items
    else
      var e := SubtreeEnd(items, start, item.level);
      var kept := if e < 0 then items[..start + 1] else items[..start + 1] + items[start + e + 1..];
      kept[start := item]
  }

  /** The end of the descendant run: the first position after `start` whose
      level is at most `level`, or the end of the list. */
  function RunEnd(items: seq<Item>, start: nat, level: int): (j: nat)
    requires start < |items|
  {
    var e := SubtreeEnd(items, start, level);
    if e < 0 then |items| else start + 1 + e
  }

  /** `(a + [x] + b)` with the entry after `a` overwritten by `y`. */
  lemma ReplaceMiddle<T>(a: seq<T>, x: T, y: T, b: seq<T>)
    ensures (a + [x] + b)[|a| := y] == a + [y] + b
  {
  }

  /** Collapse removes exactly the descendant run: every entry strictly between
      the item and the run's end is deeper than the item, the entry at the
      run's end (if any) is not, and everything outside the run is kept, with
      `item` at the item's position. A missing item changes nothing. */
  lemma CollapseRemovesRun(items: seq<Item>, item: Item)
    ensures FindTreeIndex(items, item) < 0 ==> Collapsed(items, item) == items
    ensures FindTreeIndex(items, item) >= 0 ==>
      var i := FindTreeIndex(items, item);
      var j := RunEnd(items, i, item.level);
      i < j <= |items| &&
      (forall k :: i < k < j ==> items[k].level > item.level) &&
      (j < |items| ==> items[j].level <= item.level) &&
      Collapsed(items, item) == items[..i] + [item] + items[j..]
  {
    var i := FindTreeIndex(items, item);
    if i >= 0 {
      CollapsedShape(items, item, i);
    }
  }

  lemma CollapsedShape(items: seq<Item>, item: Item, i: nat)
    requires i == FindTreeIndex(items, item)
    ensures Collapsed(items, item) == items[..i] + [item] + items[RunEnd(items, i, item.level)..]
  {
    var e := SubtreeEnd(items, i, item.level);
    if e < 0 {
      KeepAround(items, i, |items|, item);
    } else {
      KeepAround(items, i, i + e + 1, item);
    }
  }

  /** Keeping `s[..i + 1]` and `s[j..]`, then overwriting position `i`. */
  lemma KeepAround<T>(s: seq<T>, i: nat, j: nat, y: T)
    requires i < j <= |s|
    ensures j == |s| ==> s[..i + 1][i := y] == s[..i] + [y] + s[j..]
    ensures (s[..i + 1] + s[j..])[i := y] == s[..i] + [y] + s[j..]
  {
    assert s[..i + 1] == s[..i] + [s[i]];
  }

  /** Collapsing shortens the list by the length of the removed run. */
  lemma CollapseLength(items: seq<Item>, item: Item)
    requires FindTreeIndex(items, item) >= 0
    ensures var i := FindTreeIndex(items, item);
      |Collapsed(items, item)| == |items| - (RunEnd(items, i, item.level) - i - 1)
  {
    CollapseRemovesRun(items, item);
  }

  /** Overwriting entry `i` keeps what is before and after it. */
  lemma SpliceAt<T>(s: seq<T>, i: nat, y: T)
    requires i < |s|
    ensures s[i := y] == s[..i] + [y] + s[i + 1..]
  {
  }

  /** The first match is determined by where matching starts. */
  lemma FindTreeIndexIs(s: seq<Item>, target: Item, i: nat)
    requires i < |s| && SameNode(s[i], target)
    requires forall k :: 0 <= k < i ==> !SameNode(s[k], target)
    ensures FindTreeIndex(s, target) == i
  {
  }

  /** The run's end is determined by the levels after `start`. */
  lemma RunEndIs(s: seq<Item>, start: nat, level: int, j: nat)
    requires start < j <= |s|
    requires forall k :: start < k < j ==> s[k].level > level
    requires j < |s| ==> s[j].level <= level
    ensures RunEnd(s, start, level) == j
  {
  }

  /** Expand followed by collapse of the same node restores the list, apart
      from the node's own entry, when the children are all deeper than the
      parent and the parent had no descendants shown. */
  lemma {:induction false} ExpandCollapseRoundTrip(items: seq<Item>, parent: Item, children: seq<Item>, item: Item)
    requires FindTreeIndex(items, parent) >= 0
    requires SameNode(item, parent) && item.level == parent.level
    requires forall c :: c in children ==> c.level > parent.level
    requires var i := FindTreeIndex(items, parent);
      i + 1 == |items| || items[i + 1].level <= parent.level
    ensures var i := FindTreeIndex(items, parent);
      Collapsed(Expanded(items, parent, children), item) == items[i := item]
  {
    var i := FindTreeIndex(items, parent);
    var x := Expanded(items, parent, children);
    var j := i + 1 + |children|;
    ExpandedFindsNode(items, parent, children, item);
    ExpandedRunEnd(items, parent, children, item.level);
    CollapsedShape(x, item, i);
    SpliceSlices(items, i, parent, children);
    SpliceAt(items, i, item);
  }

  /** After expanding, a node with the parent's identity is found where the
      parent was. */
  lemma ExpandedFindsNode(items: seq<Item>, parent: Item, children: seq<Item>, item: Item)
    requires FindTreeIndex(items, parent) >= 0 && SameNode(item, parent)
    ensures FindTreeIndex(Expanded(items, parent, children), item) == FindTreeIndex(items, parent)
  {
    var i := FindTreeIndex(items, parent);
    var x := Expanded(items, parent, children);
    SpliceIndexes(items, i, parent, children);
    forall k | 0 <= k < i ensures !SameNode(x[k], item) {
      assert x[k] == items[k];
    }
    FindTreeIndexIs(x, item, i);
  }

  /** After expanding with deeper children, the parent's run ends right after
      the children when the parent had no descendants shown. */
  lemma ExpandedRunEnd(items: seq<Item>, parent: Item, children: seq<Item>, level: int)
    requires FindTreeIndex(items, parent) >= 0
    requires forall c :: c in children ==> c.level > level
    requires var i := FindTreeIndex(items, parent);
      i + 1 == |items| || items[i + 1].level <= level
    ensures var i := FindTreeIndex(items, parent);
      RunEnd(Expanded(items, parent, children), i, level) == i + 1 + |children|
  {
    var i := FindTreeIndex(items, parent);
    var x := Expanded(items, parent, children);
    var j := i + 1 + |children|;
    SpliceIndexes(items, i, parent, children);
    forall k | i < k < j ensures x[k].level > level {
      assert x[k] == children[k - i - 1];
    }
    if j < |x| {
      assert x[j] == items[i + 1];
    }
    RunEndIs(x, i, level, j);
  }

  /** Sorting keeps the children's levels, so the round trip applies to the
      children as `expandItem` inserts them. */
  lemma SortedChildrenDeeper(params: Params, children: seq<Item>, level: int)
    requires forall c :: c in children ==> c.level > level
    ensures forall c :: c in SortItems(params, children) ==> c.level > level
  {
    forall c | c in SortItems(params, children) ensures c.level > level {
      assert c in multiset(SortItems(params, children));
    }
  }

  // ---------------------------------------------------------------- refresh

  /** `sourceItems[index]`: the items of one source, in their input order. */
  function ItemsOf(items: seq<Item>, index: int): (r: seq<Item>)
    ensures forall x :: x in r ==> x in items && x.sourceIndex == index
  {
    if items == [] then []
    else
      var last := items[|items| - 1];
      ItemsOf(items[..|items| - 1], index) + (if last.sourceIndex == index then [last] else [])
  }

  lemma {:induction false} ItemsOfComplete(items: seq<Item>, index: int)
    ensures forall x :: x in items && x.sourceIndex == index ==> x in ItemsOf(items, index)
  {
    if items != [] {
      ItemsOfComplete(items[..|items| - 1], index);
      assert forall x :: x in items ==> x in items[..|items| - 1] || x == items[|items| - 1];
    }
  }

  /** `groups` holds, for exactly the sources that have items, those items in
      input order. */
  ghost predicate Grouped(groups: map<int, seq<Item>>, items: seq<Item>)
  {
    forall idx :: (idx in groups <==> ItemsOf(items, idx) != []) &&
                  (idx in groups ==> groups[idx] == ItemsOf(items, idx))
  }

  /** Scanning one more item extends its source's group. */
  lemma ItemsOfSnocAt(items: seq<Item>, i: nat, index: int)
    requires i < |items|
    ensures ItemsOf(items[..i + 1], index) ==
            ItemsOf(items[..i], index) + (if items[i].sourceIndex == index then [items[i]] else [])
  {
    assert items[..i + 1][..i] == items[..i];
  }

  /** Pushing the next item onto its group keeps the grouping. */
  lemma GroupedSnoc(groups: map<int, seq<Item>>, items: seq<Item>, i: nat)
    requires i < |items| && Grouped(groups, items[..i])
    ensures var si := items[i].sourceIndex;
      var group := if si in groups then groups[si] else [];
      Grouped(groups[si := group + [items[i]]], items[..i + 1])
  {
    var si := items[i].sourceIndex;
    var group := if si in groups then groups[si] else [];
    var g := groups[si := group + [items[i]]];
    forall idx ensures (idx in g <==> ItemsOf(items[..i + 1], idx) != []) &&
                       (idx in g ==> g[idx] == ItemsOf(items[..i + 1], idx))
    {
      ItemsOfSnocAt(items, i, idx);
    }
  }

  /** The display path of a root: the source path (the working directory when
      empty), with the first occurrence of a non-empty home directory
      replaced by `~`. */
  function RootPath(source: SourceInfo, cwd: string): string
  {
    if source.path == "" then cwd else source.path
  }

  function DisplayPath(root: string, home: string): string
  {
    if home != "" then ReplaceFirst(root, home, "~") else root
  }

  /** The synthetic root `getSortedItems` creates for a source; `oid` is the
      identity of the new object, `strwidth` the editor's display width. */
  function RootItem(source: SourceInfo, params: Params, cwd: string, home: string,
                    strwidth: string -> int, oid: nat): (r: Item)
  {
    var root := RootPath(source, cwd);
    var display := DisplayPath(root, home);
    Item(
      oid := oid,
      word := root,
      display := Some(source.name + ":" + display),
      action := Some(ActionData(true, root)),
      highlights := [
        Highlight("root-source-name", params.highlights.sourceName.GetOr("Type"), 1, strwidth(source.name)),
        Highlight("root-source-path", params.highlights.sourcePath.GetOr("String"), |source.name| + 2, strwidth(display))],
      kind := source.kind,
      isTree := true,
      treePath := Some(root),
      sourceIndex := source.index,
      sourceName := source.name,
      level := -1,
      expanded := true,
      size := None,
      time := None,
      others := [("matcherKey", "\"word\"")])
  }

  /** A root is a directory tree at level -1, already expanded, with no root
      above it to skip to: its word, tree path and action path are the source
      path (the working directory when that is empty), and it is shown as
      `name:path` with the first occurrence of a non-empty home directory
      replaced by `~`. Its two highlights cover the name from column 1 and
      the path from just after the `:`. */
  lemma RootItemShape(source: SourceInfo, params: Params, cwd: string, home: string,
                      strwidth: string -> int, oid: nat)
    ensures var r := RootItem(source, params, cwd, home, strwidth, oid);
      var root := if source.path == "" then cwd else source.path;
      r.level == -1 && r.expanded && r.isTree && r.oid == oid &&
      r.word == root && r.treePath == Some(root) && r.action == Some(ActionData(true, root)) &&
      r.sourceIndex == source.index && r.sourceName == source.name && r.kind == source.kind &&
      r.size == None && r.time == None && r.others == [("matcherKey", "\"word\"")]
    ensures var r := RootItem(source, params, cwd, home, strwidth, oid);
      var root := if source.path == "" then cwd else source.path;
      (home == "" || FindFirst(root, home).None? ==> r.display == Some(source.name + ":" + root)) &&
      (home != "" && FindFirst(root, home).Some? ==>
         var k := FindFirst(root, home).value;
         r.display == Some(source.name + ":" + root[..k] + "~" + root[k + |home|..]))
    ensures var r := RootItem(source, params, cwd, home, strwidth, oid);
      |r.highlights| == 2 &&
      r.highlights[0].col == 1 && r.highlights[0].width == strwidth(source.name) &&
      r.highlights[0].hlGroup == params.highlights.sourceName.GetOr("Type") &&
      r.highlights[1].col == |source.name| + 2 &&
      r.highlights[1].hlGroup == params.highlights.sourcePath.GetOr("String")
  {
    var root := RootPath(source, cwd);
    if home != "" && FindFirst(root, home).Some? {
      var k := FindFirst(root, home).value;
      assert source.name + ":" + (root[..k] + "~" + root[k + |home|..]) ==
        source.name + ":" + root[..k] + "~" + root[k + |home|..];
    }
  }

  /** The items of one source as its block lists them: sorted, nothing when
      the source has no items. */
  function SourceItems(items: seq<Item>, params: Params, index: int): (r: seq<Item>)
    ensures forall x :: x in r ==> x in items && x.sourceIndex == index
    ensures forall x :: x in items && x.sourceIndex == index ==> x in r
  {
    var of := ItemsOf(items, index);
    ItemsOfComplete(items, index);
    if of == [] then []
    else
      var r := SortItems(params, of);
      assert forall x :: x in r <==> x in multiset(of);
      r
  }

  /** What one source contributes: its root, then its items sorted. */
  function Block(source: SourceInfo, items: seq<Item>, params: Params, cwd: string, home: string,
                 strwidth: string -> int, oid: nat): seq<Item>
  {
    [RootItem(source, params, cwd, home, strwidth, oid)] + SourceItems(items, params, source.index)
  }

  /** A block is its root followed by its source's group, sorted. */
  lemma BlockIs(source: SourceInfo, items: seq<Item>, params: Params, cwd: string, home: string,
                strwidth: string -> int, oid: nat)
    ensures var block := Block(source, items, params, cwd, home, strwidth, oid);
      var root := RootItem(source, params, cwd, home, strwidth, oid);
      var of := ItemsOf(items, source.index);
      (of == [] ==> block == [root]) && (of != [] ==> block == [root] + SortItems(params, of))
  {
  }

  /** The block read off the grouped items: the root, then the source's
      group sorted when it has one. */
  lemma BlockOfGroups(source: SourceInfo, groups: map<int, seq<Item>>, items: seq<Item>, params: Params,
                      cwd: string, home: string, strwidth: string -> int, oid: nat)
    requires Grouped(groups, items)
    ensures var root := RootItem(source, params, cwd, home, strwidth, oid);
      Block(source, items, params, cwd, home, strwidth, oid) ==
        [root] + (if source.index in groups then SortItems(params, groups[source.index]) else [])
  {
    BlockIs(source, items, params, cwd, home, strwidth, oid);
    assert source.index in groups <==> ItemsOf(items, source.index) != [];
  }

  /** The list `getSortedItems` builds: the sources' blocks in `sources` order. */
  function Layout(sources: seq<SourceInfo>, items: seq<Item>, params: Params, cwd: string, home: string,
                  strwidth: string -> int, rootOids: seq<nat>): seq<Item>
    requires |rootOids| == |sources|
  {
    if sources == [] then []
    else
      var n := |sources| - 1;
      Layout(sources[..n], items, params, cwd, home, strwidth, rootOids[..n]) +
      Block(sources[n], items, params, cwd, home, strwidth, rootOids[n])
  }

  /** One more source appends its block. */
  lemma LayoutSnoc(sources: seq<SourceInfo>, items: seq<Item>, params: Params, cwd: string, home: string,
                   strwidth: string -> int, rootOids: seq<nat>, j: nat)
    requires |rootOids| == |sources| && j < |sources|
    ensures Layout(sources[..j + 1], items, params, cwd, home, strwidth, rootOids[..j + 1]) ==
      Layout(sources[..j], items, params, cwd, home, strwidth, rootOids[..j]) +
      Block(sources[j], items, params, cwd, home, strwidth, rootOids[j])
  {
    assert sources[..j + 1][..j] == sources[..j];
    assert rootOids[..j + 1][..j] == rootOids[..j];
  }

  /** The entries at level -1 (the synthetic roots). */
  function Roots(s: seq<Item>): seq<Item>
  {
    if s == [] then [] else Roots(s[..|s| - 1]) + (if s[|s| - 1].level == -1 then [s[|s| - 1]] else [])
  }

  lemma {:induction false} RootsAppend(a: seq<Item>, b: seq<Item>)
    ensures Roots(a + b) == Roots(a) + Roots(b)
    decreases |b|
  {
    if b == [] {
      assert a + b == a;
    } else {
      RootsAppend(a, b[..|b| - 1]);
      assert (a + b)[..|a + b| - 1] == a + b[..|b| - 1];
    }
  }

  lemma {:induction false} NoRoots(s: seq<Item>)
    requires forall x :: x in s ==> x.level >= 0
    ensures Roots(s) == []
  {
    if s != [] {
      assert forall x :: x in s[..|s| - 1] ==> x in s;
      NoRoots(s[..|s| - 1]);
    }
  }

  /** A block's only level -1 entry is its root. */
  lemma BlockRoots(source: SourceInfo, items: seq<Item>, params: Params, cwd: string, home: string,
                   strwidth: string -> int, oid: nat)
    requires forall x :: x in items ==> x.level >= 0
    ensures Roots(Block(source, items, params, cwd, home, strwidth, oid)) == [RootItem(source, params, cwd, home, strwidth, oid)]
  {
    var root := RootItem(source, params, cwd, home, strwidth, oid);
    var rest := SourceItems(items, params, source.index);
    NoRoots(rest);
    RootsAppend([root], rest);
    assert [root][..0] == [];
  }

  /** The roots of the listed sources, in `sources` order. */
  function RootList(sources: seq<SourceInfo>, params: Params, cwd: string, home: string,
                    strwidth: string -> int, rootOids: seq<nat>): (r: seq<Item>)
    requires |rootOids| == |sources|
    ensures |r| == |sources|
  {
    if sources == [] then []
    else
      var n := |sources| - 1;
      RootList(sources[..n], params, cwd, home, strwidth, rootOids[..n]) +
      [RootItem(sources[n], params, cwd, home, strwidth, rootOids[n])]
  }

  lemma {:induction false} RootListAt(sources: seq<SourceInfo>, params: Params, cwd: string, home: string,
                                      strwidth: string -> int, rootOids: seq<nat>, k: nat)
    requires |rootOids| == |sources| && k < |sources|
    ensures RootList(sources, params, cwd, home, strwidth, rootOids)[k] ==
      RootItem(sources[k], params, cwd, home, strwidth, rootOids[k])
  {
    var n := |sources| - 1;
    if k < n {
      RootListAt(sources[..n], params, cwd, home, strwidth, rootOids[..n], k);
      assert sources[..n][k] == sources[k] && rootOids[..n][k] == rootOids[k];
    }
  }

  lemma {:induction false} LayoutRootList(sources: seq<SourceInfo>, items: seq<Item>, params: Params, cwd: string,
                                          home: string, strwidth: string -> int, rootOids: seq<nat>)
    requires |rootOids| == |sources|
    requires forall x :: x in items ==> x.level >= 0
    ensures Roots(Layout(sources, items, params, cwd, home, strwidth, rootOids)) ==
      RootList(sources, params, cwd, home, strwidth, rootOids)
  {
    if sources != [] {
      var n := |sources| - 1;
      var prev := Layout(sources[..n], items, params, cwd, home, strwidth, rootOids[..n]);
      LayoutRootList(sources[..n], items, params, cwd, home, strwidth, rootOids[..n]);
      BlockRoots(sources[n], items, params, cwd, home, strwidth, rootOids[n]);
      RootsAppend(prev, Block(sources[n], items, params, cwd, home, strwidth, rootOids[n]));
    }
  }

  /** Refresh layout: when the sources' own items are at level 0 or deeper,
      the level -1 entries of the list are exactly one root per source, in
      `sources` order, each built from its source. */
  lemma LayoutRoots(sources: seq<SourceInfo>, items: seq<Item>, params: Params, cwd: string,
                    home: string, strwidth: string -> int, rootOids: seq<nat>)
    requires |rootOids| == |sources|
    requires forall x :: x in items ==> x.level >= 0
    ensures var r := Roots(Layout(sources, items, params, cwd, home, strwidth, rootOids));
      |r| == |sources| &&
      forall k :: 0 <= k < |sources| ==> r[k] == RootItem(sources[k], params, cwd, home, strwidth, rootOids[k])
  {
    LayoutRootList(sources, items, params, cwd, home, strwidth, rootOids);
    forall k | 0 <= k < |sources|
      ensures RootList(sources, params, cwd, home, strwidth, rootOids)[k] ==
        RootItem(sources[k], params, cwd, home, strwidth, rootOids[k])
    {
      RootListAt(sources, params, cwd, home, strwidth, rootOids, k);
    }
  }

  /** Is `x` the root of one of the listed sources? */
  ghost predicate IsRootOf(x: Item, sources: seq<SourceInfo>, params: Params, cwd: string, home: string,
                           strwidth: string -> int, rootOids: seq<nat>)
    requires |rootOids| == |sources|
  {
    exists k :: 0 <= k < |sources| && x == RootItem(sources[k], params, cwd, home, strwidth, rootOids[k])
  }

  /** Does `x` come from one of the listed sources? */
  ghost predicate FromListed(x: Item, sources: seq<SourceInfo>)
  {
    exists k :: 0 <= k < |sources| && sources[k].index == x.sourceIndex
  }

  /** Refresh adds nothing but roots: an entry of the list is the root of a
      listed source or an input item of a listed source. */
  lemma {:induction false} LayoutSound(sources: seq<SourceInfo>, items: seq<Item>, params: Params, cwd: string,
                                       home: string, strwidth: string -> int, rootOids: seq<nat>)
    requires |rootOids| == |sources|
    ensures forall x :: x in Layout(sources, items, params, cwd, home, strwidth, rootOids) ==>
      IsRootOf(x, sources, params, cwd, home, strwidth, rootOids) || (x in items && FromListed(x, sources))
  {
    if sources != [] {
      var n := |sources| - 1;
      LayoutSound(sources[..n], items, params, cwd, home, strwidth, rootOids[..n]);
      var prev := Layout(sources[..n], items, params, cwd, home, strwidth, rootOids[..n]);
      var root := RootItem(sources[n], params, cwd, home, strwidth, rootOids[n]);
      var rest := SourceItems(items, params, sources[n].index);
      assert Layout(sources, items, params, cwd, home, strwidth, rootOids) == prev + [root] + rest;
      forall x | x in prev + [root] + rest
        ensures IsRootOf(x, sources, params, cwd, home, strwidth, rootOids) || (x in items && FromListed(x, sources))
      {
        if x in prev {
          if IsRootOf(x, sources[..n], params, cwd, home, strwidth, rootOids[..n]) {
            RootOfPrefix(x, sources, n, params, cwd, home, strwidth, rootOids);
          } else {
            ListedPrefix(x, sources, n);
          }
        } else if x == root {
          assert sources[n] == sources[n] && x == RootItem(sources[n], params, cwd, home, strwidth, rootOids[n]);
        } else {
          assert x in rest && sources[n].index == x.sourceIndex;
        }
      }
    }
  }

  /** A root of a prefix of the sources is a root of the sources. */
  lemma RootOfPrefix(x: Item, sources: seq<SourceInfo>, n: nat, params: Params, cwd: string, home: string,
                     strwidth: string -> int, rootOids: seq<nat>)
    requires n <= |sources| == |rootOids|
    requires IsRootOf(x, sources[..n], params, cwd, home, strwidth, rootOids[..n])
    ensures IsRootOf(x, sources, params, cwd, home, strwidth, rootOids)
  {
    var k :| 0 <= k < n && x == RootItem(sources[..n][k], params, cwd, home, strwidth, rootOids[..n][k]);
    assert sources[..n][k] == sources[k] && rootOids[..n][k] == rootOids[k];
  }

  /** An item from a prefix of the sources comes from the sources. */
  lemma ListedPrefix(x: Item, sources: seq<SourceInfo>, n: nat)
    requires n <= |sources|
    requires FromListed(x, sources[..n])
    ensures FromListed(x, sources)
  {
    var k :| 0 <= k < n && sources[..n][k].index == x.sourceIndex;
    assert sources[k] == sources[..n][k];
  }

  /** The last source's items end the list. */
  lemma LayoutLast(sources: seq<SourceInfo>, items: seq<Item>, params: Params, cwd: string,
                   home: string, strwidth: string -> int, rootOids: seq<nat>)
    requires |rootOids| == |sources| > 0
    ensures var n := |sources| - 1;
      var l := Layout(sources, items, params, cwd, home, strwidth, rootOids);
      (forall x :: x in Layout(sources[..n], items, params, cwd, home, strwidth, rootOids[..n]) ==> x in l) &&
      (forall x :: x in SourceItems(items, params, sources[n].index) ==> x in l)
  {
  }

  /** Refresh drops no item of a listed source. */
  lemma {:induction false} LayoutComplete(sources: seq<SourceInfo>, items: seq<Item>, params: Params, cwd: string,
                                          home: string, strwidth: string -> int, rootOids: seq<nat>, x: Item)
    requires |rootOids| == |sources|
    requires x in items && FromListed(x, sources)
    ensures x in Layout(sources, items, params, cwd, home, strwidth, rootOids)
  {
    var n := |sources| - 1;
    LayoutLast(sources, items, params, cwd, home, strwidth, rootOids);
    if x.sourceIndex != sources[n].index {
      var k :| 0 <= k < |sources| && sources[k].index == x.sourceIndex;
      assert sources[..n][k] == sources[k];
      LayoutComplete(sources[..n], items, params, cwd, home, strwidth, rootOids[..n], x);
    }
  }

  /** `items.findIndex(item => item === target)` */
  function IndexOfIdentical(items: seq<Item>, target: Item): (r: int)
    ensures -1 <= r < |items|
    ensures r >= 0 ==> Identical(items[r], target) && forall k :: 0 <= k < r ==> !Identical(items[k], target)
    ensures r == -1 <==> forall k :: 0 <= k < |items| ==> !Identical(items[k], target)
  {
    IndexOfIdenticalFrom(items, target, 0)
  }

  /** The scan behind `IndexOfIdentical`, from position `i` on. */
  function IndexOfIdenticalFrom(items: seq<Item>, target: Item, i: nat): (r: int)
    requires i <= |items|
    requires forall k :: 0 <= k < i ==> !Identical(items[k], target)
    ensures -1 <= r < |items|
    ensures r >= 0 ==> Identical(items[r], target) && forall k :: 0 <= k < r ==> !Identical(items[k], target)
    ensures r == -1 <==> forall k :: 0 <= k < |items| ==> !Identical(items[k], target)
    decreases |items| - i
  {
    if i == |items| then -1
    else if Identical(items[i], target) then i
    else IndexOfIdenticalFrom(items, target, i + 1)
  }
}
