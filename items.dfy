/** The values the filer works on: items handed over by the sources, the
    sources themselves, the UI parameters and the flags an action returns. */
module Items {
  import opened Wrappers

  /** One `highlights` entry of an item. */
  datatype Highlight = Highlight(name: string, hlGroup: string, col: int, width: int)

  /** The `action` record of a synthetic root: `{ isDirectory, path }`. */
  datatype ActionData = ActionData(isDirectory: bool, path: string)

  /** A `DduItem`. `oid` stands for the object's reference identity, which
      `===` compares; every other field is part of the item's value, which
      `JSON.stringify` compares. An absent `isTree` / `__expanded` reads as
      false; an absent `status` leaves both `size` and `time` absent.
      `others` holds the fields nothing here reads (`matcherKey`, `data`,
      `action` keys beyond `isDirectory` and `path`, and the like) as key and
      JSON text, in key order, so that value comparison still sees them. */
  datatype Item = Item(
    oid: nat,
    word: string,
    display: Option<string>,
    action: Option<ActionData>,
    highlights: seq<Highlight>,
    kind: string,
    isTree: bool,
    treePath: Option<string>,
    sourceIndex: int,
    sourceName: string,
    level: int,
    expanded: bool,
    size: Option<int>,
    time: Option<int>,
    others: seq<(string, string)>)

  /** `a === b` on items. */
  predicate Identical(a: Item, b: Item)
  {
    a.oid == b.oid
  }

  /** `JSON.stringify(a) === JSON.stringify(b)`: equal values, whatever the
      identities. */
  predicate SameValue(a: Item, b: Item)
  {
    a.(oid := 0) == b.(oid := 0)
  }

  /** Items that differ only in fields nothing here reads (`matcherKey`,
      `data`, …) are still different values. */
  lemma OtherFieldsDistinguish(a: Item, b: Item)
    requires a.others != b.others
    ensures !SameValue(a, b)
  {
    assert a.(oid := 0).others != b.(oid := 0).others;
  }

  /** `treePath ?? word`, the name the filename and extension orders use. */
  function SortName(item: Item): string
  {
    item.treePath.GetOr(item.word)
  }

  /** A `SourceInfo`. */
  datatype SourceInfo = SourceInfo(name: string, index: int, path: string, kind: string)

  /** The `highlights` UI parameter. */
  datatype HighlightGroup = HighlightGroup(
    floating: Option<string>,
    floatingBorder: Option<string>,
    selected: Option<string>,
    sourceName: Option<string>,
    sourcePath: Option<string>)

  /** `Params` of the filer UI. The fields the modelled code reads are
      written out; `others` holds the remaining ones (`floatingBorder`,
      `focus`, `previewCol`, `previewFloatingBorder`, `previewFloatingZindex`,
      `previewHeight`, `previewRow`, `previewWidth`, `search`,
      `splitDirection`, `statusline`, `winCol`, `winHeight`, `winRow`,
      `winWidth`) as name and JSON text, so that comparing two records, as
      `isChangedUiParams` does, still sees a change in any of them. */
  datatype Params = Params(
    highlights: HighlightGroup,
    previewFloating: bool,
    previewSplit: string,
    previewWindowOptions: seq<(string, string)>,
    sort: string,
    sortTreesFirst: bool,
    split: string,
    others: seq<(string, string)>)

  /** `ActionFlags` as an action returns it; `ActionFlags.None` is `NoAction`. */
  datatype ActionFlag = NoAction | Redraw | Persist | RefreshItems
}
