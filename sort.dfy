/** The filer's sort policy (`sortItems` and the `sortBy*` comparators): a
    stable sort by the comparator the `sort` parameter names, reversed when
    that parameter is not all lower case, then optionally trees first. */
module SortPolicy {
  import opened Wrappers
  import opened Strings
  import opened Items

  datatype SortMethod = ByFilename | ByExtension | BySize | ByTime | ByNone

  /** The comparator `uiParams.sort.toLowerCase()` selects; any other value
      selects `sortByNone`. */
  function MethodOf(sort: string): (m: SortMethod)
    ensures m != ByNone ==> ToLower(sort) in {"filename", "extension", "size", "time"}
    ensures ToLower(sort) == "filename" <==> m == ByFilename
    ensures ToLower(sort) == "extension" <==> m == ByExtension
    ensures ToLower(sort) == "size" <==> m == BySize
    ensures ToLower(sort) == "time" <==> m == ByTime
  {
    var lower := ToLower(sort);
    if lower == "extension" then ByExtension
    else if lower == "size" then BySize
    else if lower == "time" then ByTime
    else if lower == "filename" then ByFilename
    else ByNone
  }

  /** `uiParams.sort.toLowerCase() !== uiParams.sort`: the order is reversed
      exactly when the `sort` string holds an upper-case letter ("Filename",
      "Size", ...). */
  predicate IsReversed(sort: string)
    ensures IsReversed(sort) <==> exists i :: 0 <= i < |sort| && 'A' <= sort[i] <= 'Z'
  {
    ToLowerChangesIffUpper(sort);
    ToLower(sort) != sort
  }

  /** `a < b ? -1 : a > b ? 1 : 0` on strings. */
  function CompareStrings(a: string, b: string): int
  {
    if Less(a, b) then -1 else if Less(b, a) then 1 else 0
  }

  /** `a < b ? -1 : a > b ? 1 : 0` on numbers. */
  function CompareNumbers(a: int, b: int): int
  {
    if a < b then -1 else if a > b then 1 else 0
  }

  /** The comparator the sort method names: `sortByFilename` and
      `sortByExtension` compare `treePath ?? word` (the latter through its
      extension), `sortBySize` and `sortByTime` compare `status.size` /
      `status.time` with -1 for a missing value, `sortByNone` says "equal". */
  function Compare(m: SortMethod, a: Item, b: Item): (r: int)
    ensures r == -1 || r == 0 || r == 1
  {
    match m
    case ByFilename => CompareStrings(SortName(a), SortName(b))
    case ByExtension => CompareStrings(Extname(SortName(a)), Extname(SortName(b)))
    case BySize => CompareNumbers(a.size.GetOr(-1), b.size.GetOr(-1))
    case ByTime => CompareNumbers(a.time.GetOr(-1), b.time.GetOr(-1))
    case ByNone => 0
  }

  /** The comparators agree with the orders they are built on: -1 exactly when
      the key of the first is smaller, 1 exactly when it is larger. */
  lemma CompareMeaning(m: SortMethod, a: Item, b: Item)
    ensures m == ByFilename ==>
      (Compare(m, a, b) == -1 <==> Less(SortName(a), SortName(b))) &&
      (Compare(m, a, b) == 0 <==> SortName(a) == SortName(b))
    ensures m == ByExtension ==>
      (Compare(m, a, b) == -1 <==> Less(Extname(SortName(a)), Extname(SortName(b)))) &&
      (Compare(m, a, b) == 0 <==> Extname(SortName(a)) == Extname(SortName(b)))
    ensures m == BySize ==>
      (Compare(m, a, b) == -1 <==> a.size.GetOr(-1) < b.size.GetOr(-1)) &&
      (Compare(m, a, b) == 0 <==> a.size.GetOr(-1) == b.size.GetOr(-1))
    ensures m == ByTime ==>
      (Compare(m, a, b) == -1 <==> a.time.GetOr(-1) < b.time.GetOr(-1)) &&
      (Compare(m, a, b) == 0 <==> a.time.GetOr(-1) == b.time.GetOr(-1))
  {
    StringCompareMeaning(SortName(a), SortName(b));
    StringCompareMeaning(Extname(SortName(a)), Extname(SortName(b)));
  }

  lemma StringCompareMeaning(a: string, b: string)
    ensures CompareStrings(a, b) == -1 <==> Less(a, b)
    ensures CompareStrings(a, b) == 0 <==> a == b
  {
    LessTotal(a, b);
    LessIrreflexive(a);
    if Less(a, b) { LessAsymmetric(a, b); }
  }

  /** Swapping the arguments negates the comparison. */
  lemma CompareAntisymmetric(m: SortMethod, a: Item, b: Item)
    ensures Compare(m, a, b) == -Compare(m, b, a)
  {
    match m
    case ByFilename => StringsAntisymmetric(SortName(a), SortName(b));
    case ByExtension => StringsAntisymmetric(Extname(SortName(a)), Extname(SortName(b)));
    case _ =>
  }

  lemma StringsAntisymmetric(a: string, b: string)
    ensures CompareStrings(a, b) == -CompareStrings(b, a)
  {
    if Less(a, b) { LessAsymmetric(a, b); }
  }

  /** "Sorts no later than" is transitive: the comparators are consistent. */
  lemma CompareTransitive(m: SortMethod, a: Item, b: Item, c: Item)
    requires Compare(m, a, b) <= 0 && Compare(m, b, c) <= 0
    ensures Compare(m, a, c) <= 0
  {
    match m
    case ByFilename => StringsTransitive(SortName(a), SortName(b), SortName(c));
    case ByExtension =>
      StringsTransitive(Extname(SortName(a)), Extname(SortName(b)), Extname(SortName(c)));
    case _ =>
  }

  lemma StringsTransitive(a: string, b: string, c: string)
    requires CompareStrings(a, b) <= 0 && CompareStrings(b, c) <= 0
    ensures CompareStrings(a, c) <= 0
  {
    StringCompareMeaning(a, b);
    StringCompareMeaning(b, c);
    StringCompareMeaning(a, c);
    if Less(a, b) && Less(b, c) { LessTransitive(a, b, c); }
  }

  /** A three-way comparator over items. */
  type Comparator = (Item, Item) -> int

  /** What `Array.prototype.sort` needs of its comparator: swapping the
      arguments negates the answer, and "sorts no later than" is transitive. */
  ghost predicate Consistent(cmp: Comparator)
  {
    (forall a, b :: cmp(a, b) == -cmp(b, a)) &&
    (forall a, b, c :: cmp(a, b) <= 0 && cmp(b, c) <= 0 ==> cmp(a, c) <= 0)
  }

  /** The `sortBy*` function the method names, as a value. */
  function ComparatorOf(m: SortMethod): Comparator
  {
    (a, b) => Compare(m, a, b)
  }

  /** Each of the five comparators is consistent. */
  lemma ComparatorConsistent(m: SortMethod)
    ensures Consistent(ComparatorOf(m))
  {
    var cmp := ComparatorOf(m);
    forall a, b ensures cmp(a, b) == -cmp(b, a) {
      CompareAntisymmetric(m, a, b);
    }
    forall a, b, c | cmp(a, b) <= 0 && cmp(b, c) <= 0 ensures cmp(a, c) <= 0 {
      CompareTransitive(m, a, b, c);
    }
  }

  /** `s` is in ascending order for `cmp`. */
  ghost predicate Sorted(cmp: Comparator, s: seq<Item>)
  {
    forall i, j :: 0 <= i < j < |s| ==> cmp(s[i], s[j]) <= 0
  }

  /** Puts `x` in front of the first element it does not sort after. */
  function Insert(cmp: Comparator, x: Item, s: seq<Item>): seq<Item>
  {
    if s == [] then [x]
    else if cmp(x, s[0]) <= 0 then [x] + s
    else [s[0]] + Insert(cmp, x, s[1..])
  }

  lemma {:induction false} InsertPermutes(cmp: Comparator, x: Item, s: seq<Item>)
    ensures multiset(Insert(cmp, x, s)) == multiset(s) + multiset{x}
  {
    if s != [] && cmp(x, s[0]) > 0 {
      InsertPermutes(cmp, x, s[1..]);
      assert s == [s[0]] + s[1..];
    }
  }

  /** The stable sort `Array.prototype.sort` performs with a consistent
      comparator, as an insertion sort: each element goes in front of the
      elements after it that it does not sort after. */
  function StableSort(cmp: Comparator, s: seq<Item>): seq<Item>
  {
    if s == [] then []
    else Insert(cmp, s[0], StableSort(cmp, s[1..]))
  }

  /** The sort is a permutation of its input. */
  lemma {:induction false} StableSortPermutes(cmp: Comparator, s: seq<Item>)
    ensures multiset(StableSort(cmp, s)) == multiset(s)
  {
    if s != [] {
      StableSortPermutes(cmp, s[1..]);
      InsertPermutes(cmp, s[0], StableSort(cmp, s[1..]));
      assert s == [s[0]] + s[1..];
    }
  }

  lemma {:induction false} InsertElements(cmp: Comparator, x: Item, s: seq<Item>)
    ensures forall y :: y in Insert(cmp, x, s) ==> y == x || y in s
  {
    if s != [] && cmp(x, s[0]) > 0 {
      InsertElements(cmp, x, s[1..]);
    }
  }

  lemma InsertFrontSorted(cmp: Comparator, x: Item, s: seq<Item>)
    requires Consistent(cmp)
    requires Sorted(cmp, s) && s != [] && cmp(x, s[0]) <= 0
    ensures Sorted(cmp, [x] + s)
  {
    var r := [x] + s;
    forall i, j | 0 <= i < j < |r| ensures cmp(r[i], r[j]) <= 0 {
      assert r[j] == s[j - 1];
      if i > 0 { assert r[i] == s[i - 1]; }
      else if j > 1 { assert cmp(s[0], s[j - 1]) <= 0; }
    }
  }

  lemma ConsSorted(cmp: Comparator, y: Item, t: seq<Item>)
    requires Sorted(cmp, t)
    requires forall z :: z in t ==> cmp(y, z) <= 0
    ensures Sorted(cmp, [y] + t)
  {
    var r := [y] + t;
    forall i, j | 0 <= i < j < |r| ensures cmp(r[i], r[j]) <= 0 {
      assert r[j] == t[j - 1];
      if i > 0 { assert r[i] == t[i - 1]; }
      else { assert t[j - 1] in t; }
    }
  }

  lemma TailSorted(cmp: Comparator, s: seq<Item>)
    requires Sorted(cmp, s) && s != []
    ensures Sorted(cmp, s[1..])
    ensures forall z :: z in s[1..] ==> cmp(s[0], z) <= 0
  {
    forall i, j | 0 <= i < j < |s[1..]| ensures cmp(s[1..][i], s[1..][j]) <= 0 {
      assert s[1..][i] == s[i + 1] && s[1..][j] == s[j + 1];
    }
    forall z | z in s[1..] ensures cmp(s[0], z) <= 0 {
      var k :| 0 <= k < |s[1..]| && s[1..][k] == z;
      assert s[k + 1] == z;
    }
  }

  lemma {:induction false} InsertSorted(cmp: Comparator, x: Item, s: seq<Item>)
    requires Consistent(cmp)
    requires Sorted(cmp, s)
    ensures Sorted(cmp, Insert(cmp, x, s))
  {
    if s == [] {
    } else if cmp(x, s[0]) <= 0 {
      InsertFrontSorted(cmp, x, s);
    } else {
      var t := Insert(cmp, x, s[1..]);
      TailSorted(cmp, s);
      InsertSorted(cmp, x, s[1..]);
      InsertElements(cmp, x, s[1..]);
      assert cmp(s[0], x) <= 0;
      ConsSorted(cmp, s[0], t);
    }
  }

  /** The sort's result is in ascending comparator order. */
  lemma {:induction false} StableSortSorted(cmp: Comparator, s: seq<Item>)
    requires Consistent(cmp)
    ensures Sorted(cmp, StableSort(cmp, s))
  {
    if s != [] {
      StableSortSorted(cmp, s[1..]);
      InsertSorted(cmp, s[0], StableSort(cmp, s[1..]));
    }
  }

  /** The elements of `s` that compare equal to `p`, in their order in `s`. */
  function EqualTo(cmp: Comparator, p: Item, s: seq<Item>): seq<Item>
  {
    if s == [] then []
    else (if cmp(s[0], p) == 0 then [s[0]] else []) + EqualTo(cmp, p, s[1..])
  }

  /** Elements that compare equal to `p` compare equal to each other. */
  ghost predicate EqualClass(cmp: Comparator, p: Item)
  {
    forall x, y :: cmp(x, p) == 0 && cmp(y, p) == 0 ==> cmp(x, y) == 0
  }

  lemma ConsistentEqualClass(cmp: Comparator, p: Item)
    requires Consistent(cmp)
    ensures EqualClass(cmp, p)
  {
    forall x, y | cmp(x, p) == 0 && cmp(y, p) == 0 ensures cmp(x, y) == 0 {
      assert cmp(p, y) == 0 && cmp(p, x) == 0;
      assert cmp(x, y) <= 0;
      assert cmp(y, x) <= 0;
    }
  }

  lemma EqualToCons(cmp: Comparator, p: Item, y: Item, t: seq<Item>)
    ensures EqualTo(cmp, p, [y] + t) == (if cmp(y, p) == 0 then [y] else []) + EqualTo(cmp, p, t)
  {
    assert ([y] + t)[0] == y && ([y] + t)[1..] == t;
  }

  lemma {:induction false} InsertKeepsEqualRun(cmp: Comparator, p: Item, x: Item, s: seq<Item>)
    requires EqualClass(cmp, p)
    ensures EqualTo(cmp, p, Insert(cmp, x, s)) ==
      (if cmp(x, p) == 0 then [x] else []) + EqualTo(cmp, p, s)
  {
    if s == [] {
      EqualToCons(cmp, p, x, []);
    } else if cmp(x, s[0]) > 0 {
      var ex := if cmp(x, p) == 0 then [x] else [];
      var e0 := if cmp(s[0], p) == 0 then [s[0]] else [];
      InsertKeepsEqualRun(cmp, p, x, s[1..]);
      EqualToCons(cmp, p, s[0], Insert(cmp, x, s[1..]));
      assert s == [s[0]] + s[1..];
      EqualToCons(cmp, p, s[0], s[1..]);
      assert ex + e0 == e0 + ex;
      assert e0 + (ex + EqualTo(cmp, p, s[1..])) == ex + (e0 + EqualTo(cmp, p, s[1..]));
    } else {
      EqualToCons(cmp, p, x, s);
    }
  }

  /** Stability: elements that compare equal keep their input order. */
  lemma {:induction false} StableSortStable(cmp: Comparator, p: Item, s: seq<Item>)
    requires EqualClass(cmp, p)
    ensures EqualTo(cmp, p, StableSort(cmp, s)) == EqualTo(cmp, p, s)
  {
    if s != [] {
      StableSortStable(cmp, p, s[1..]);
      InsertKeepsEqualRun(cmp, p, s[0], StableSort(cmp, s[1..]));
    }
  }

  /** With `sortByNone` every element compares equal, so nothing moves. */
  lemma {:induction false} SortByNoneKeepsOrder(s: seq<Item>)
    ensures StableSort(ComparatorOf(ByNone), s) == s
  {
    if s != [] {
      var cmp := ComparatorOf(ByNone);
      SortByNoneKeepsOrder(s[1..]);
      if s[1..] != [] {
        assert cmp(s[0], s[1..][0]) == 0;
        InsertInFront(cmp, s[0], s[1..]);
      }
      assert s == [s[0]] + s[1..];
    }
  }

  lemma InsertInFront(cmp: Comparator, x: Item, s: seq<Item>)
    requires s != [] && cmp(x, s[0]) <= 0
    ensures Insert(cmp, x, s) == [x] + s
  {
  }

  /** `array.reverse()` */
  function Reverse(s: seq<Item>): (r: seq<Item>)
    ensures |r| == |s|
    ensures forall i :: 0 <= i < |s| ==> r[i] == s[|s| - 1 - i]
  {
    if s == [] then [] else Reverse(s[1..]) + [s[0]]
  }

  lemma {:induction false} ReverseMultiset(s: seq<Item>)
    ensures multiset(Reverse(s)) == multiset(s)
  {
    if s != [] {
      ReverseMultiset(s[1..]);
      assert s == [s[0]] + s[1..];
    }
  }

  /** `items.sort(sortFunc)`, followed by `.reverse()` when reversed. */
  function Ordered(m: SortMethod, reversed: bool, s: seq<Item>): seq<Item>
  {
    var sorted := StableSort(ComparatorOf(m), s);
    if reversed then Reverse(sorted) else sorted
  }

  lemma OrderedPermutes(m: SortMethod, reversed: bool, s: seq<Item>)
    ensures multiset(Ordered(m, reversed, s)) == multiset(s)
  {
    StableSortPermutes(ComparatorOf(m), s);
    ReverseMultiset(StableSort(ComparatorOf(m), s));
  }

  /** `items.filter((item) => item.isTree)` */
  function Trees(s: seq<Item>): seq<Item>
  {
    if s == [] then [] else (if s[0].isTree then [s[0]] else []) + Trees(s[1..])
  }

  /** `items.filter((item) => !item.isTree)` */
  function Files(s: seq<Item>): seq<Item>
  {
    if s == [] then [] else (if s[0].isTree then [] else [s[0]]) + Files(s[1..])
  }

  /** Every entry `Trees` keeps is a tree and every entry `Files` keeps is not. */
  lemma {:induction false} FiltersKind(s: seq<Item>)
    ensures forall i :: 0 <= i < |Trees(s)| ==> Trees(s)[i].isTree
    ensures forall i :: 0 <= i < |Files(s)| ==> !Files(s)[i].isTree
  {
    if s != [] {
      FiltersKind(s[1..]);
    }
  }

  lemma {:induction false} PartitionMultiset(s: seq<Item>)
    ensures multiset(Trees(s) + Files(s)) == multiset(s)
  {
    if s != [] {
      PartitionMultiset(s[1..]);
      assert s == [s[0]] + s[1..];
    }
  }

  lemma {:induction false} TreesOfAppend(a: seq<Item>, b: seq<Item>)
    ensures Trees(a + b) == Trees(a) + Trees(b)
    ensures Files(a + b) == Files(a) + Files(b)
  {
    TreesAppend(a, b);
    FilesAppend(a, b);
  }

  lemma {:induction false} TreesAppend(a: seq<Item>, b: seq<Item>)
    ensures Trees(a + b) == Trees(a) + Trees(b)
  {
    if a == [] {
      assert a + b == b;
    } else {
      var h := if a[0].isTree then [a[0]] else [];
      TreesAppend(a[1..], b);
      FiltersCons(a[0], a[1..] + b);
      assert a + b == [a[0]] + (a[1..] + b);
      assert Trees(a + b) == h + (Trees(a[1..]) + Trees(b));
      Assoc(h, Trees(a[1..]), Trees(b));
    }
  }

  lemma {:induction false} FilesAppend(a: seq<Item>, b: seq<Item>)
    ensures Files(a + b) == Files(a) + Files(b)
  {
    if a == [] {
      assert a + b == b;
    } else {
      var h := if a[0].isTree then [] else [a[0]];
      FilesAppend(a[1..], b);
      FiltersCons(a[0], a[1..] + b);
      assert a + b == [a[0]] + (a[1..] + b);
      assert Files(a + b) == h + (Files(a[1..]) + Files(b));
      Assoc(h, Files(a[1..]), Files(b));
    }
  }

  lemma Assoc<T>(a: seq<T>, b: seq<T>, c: seq<T>)
    ensures a + (b + c) == (a + b) + c
  {
  }

  lemma FiltersCons(x: Item, s: seq<Item>)
    ensures Trees([x] + s) == (if x.isTree then [x] else []) + Trees(s)
    ensures Files([x] + s) == (if x.isTree then [] else [x]) + Files(s)
  {
    assert ([x] + s)[0] == x && ([x] + s)[1..] == s;
  }

  lemma {:induction false} FilterIdempotent(s: seq<Item>)
    ensures Trees(Trees(s)) == Trees(s) && Files(Trees(s)) == []
    ensures Files(Files(s)) == Files(s) && Trees(Files(s)) == []
  {
    if s != [] {
      FilterIdempotent(s[1..]);
      TreesOfAppend(if s[0].isTree then [s[0]] else [], Trees(s[1..]));
      TreesOfAppend(if s[0].isTree then [] else [s[0]], Files(s[1..]));
    }
  }

  /** Trees first: every tree precedes every non-tree, and each group keeps
      the order it had before the partition. */
  lemma TreesFirstPartition(s: seq<Item>)
    ensures var r := Trees(s) + Files(s);
      (forall i, j :: 0 <= i < j < |r| && r[j].isTree ==> r[i].isTree) &&
      Trees(r) == Trees(s) && Files(r) == Files(s) &&
      multiset(r) == multiset(s)
  {
    TreesOfAppend(Trees(s), Files(s));
    FilterIdempotent(s);
    FiltersKind(s);
    PartitionMultiset(s);
  }

  /** `sortItems(uiParams, items)` */
  function SortItems(params: Params, items: seq<Item>): (r: seq<Item>)
    ensures multiset(r) == multiset(items)
  {
    var ordered := Ordered(MethodOf(params.sort), IsReversed(params.sort), items);
    OrderedPermutes(MethodOf(params.sort), IsReversed(params.sort), items);
    if params.sortTreesFirst then PartitionMultiset(ordered); Trees(ordered) + Files(ordered)
    else ordered
  }

  /** Without `sortTreesFirst` and with an all-lower-case `sort` string, the
      result is in ascending comparator order. */
  lemma SortItemsAscending(params: Params, items: seq<Item>)
    requires !params.sortTreesFirst && !IsReversed(params.sort)
    ensures var r := SortItems(params, items);
      forall i, j :: 0 <= i < j < |r| ==> Compare(MethodOf(params.sort), r[i], r[j]) <= 0
  {
    var m := MethodOf(params.sort);
    ComparatorConsistent(m);
    StableSortSorted(ComparatorOf(m), items);
    var r := SortItems(params, items);
    assert r == StableSort(ComparatorOf(m), items);
    forall i, j | 0 <= i < j < |r| ensures Compare(m, r[i], r[j]) <= 0 {
      assert ComparatorOf(m)(r[i], r[j]) <= 0;
    }
  }

  /** Without `sortTreesFirst` and with upper case in the `sort` string, the
      result is in descending comparator order. */
  lemma SortItemsDescending(params: Params, items: seq<Item>)
    requires !params.sortTreesFirst && IsReversed(params.sort)
    ensures var r := SortItems(params, items);
      forall i, j :: 0 <= i < j < |r| ==> Compare(MethodOf(params.sort), r[j], r[i]) <= 0
  {
    var m := MethodOf(params.sort);
    var sorted := StableSort(ComparatorOf(m), items);
    SortedByMethod(m, items);
    ReverseSorted(ComparatorOf(m), sorted);
    var r := SortItems(params, items);
    assert r == Reverse(sorted);
    forall i, j | 0 <= i < j < |r| ensures Compare(m, r[j], r[i]) <= 0 {
      assert ComparatorOf(m)(r[j], r[i]) <= 0;
    }
  }

  lemma SortedByMethod(m: SortMethod, items: seq<Item>)
    ensures Sorted(ComparatorOf(m), StableSort(ComparatorOf(m), items))
  {
    ComparatorConsistent(m);
    StableSortSorted(ComparatorOf(m), items);
  }

  /** Reversing a sorted sequence sorts it the other way round. */
  lemma ReverseSorted(cmp: Comparator, s: seq<Item>)
    requires Sorted(cmp, s)
    ensures forall i, j :: 0 <= i < j < |s| ==> cmp(Reverse(s)[j], Reverse(s)[i]) <= 0
  {
    var r := Reverse(s);
    forall i, j | 0 <= i < j < |s| ensures cmp(r[j], r[i]) <= 0 {
      var n := |s|;
      assert r[i] == s[n - 1 - i] && r[j] == s[n - 1 - j];
      assert cmp(s[n - 1 - j], s[n - 1 - i]) <= 0;
    }
  }

  /** With `sortTreesFirst`, every tree precedes every non-tree, and the trees
      and the non-trees each keep the order the (possibly reversed) sort gave
      them. */
  lemma SortItemsTreesFirst(params: Params, items: seq<Item>)
    requires params.sortTreesFirst
    ensures var r := SortItems(params, items);
      var ordered := Ordered(MethodOf(params.sort), IsReversed(params.sort), items);
      (forall i, j :: 0 <= i < j < |r| && r[j].isTree ==> r[i].isTree) &&
      Trees(r) == Trees(ordered) && Files(r) == Files(ordered)
  {
    TreesFirstPartition(Ordered(MethodOf(params.sort), IsReversed(params.sort), items));
  }

  /** `sortByNone` (any unrecognised `sort` string) keeps the input order,
      reversed when the string holds upper case ("None"). */
  lemma SortItemsByNone(params: Params, items: seq<Item>)
    requires MethodOf(params.sort) == ByNone && !params.sortTreesFirst
    ensures SortItems(params, items) == (if IsReversed(params.sort) then Reverse(items) else items)
  {
    SortByNoneKeepsOrder(items);
  }

  /** Stability of `sortItems` without reversal: elements with equal keys keep
      their input order. */
  lemma SortItemsStable(params: Params, items: seq<Item>, p: Item)
    requires !IsReversed(params.sort) && !params.sortTreesFirst
    ensures var cmp := ComparatorOf(MethodOf(params.sort));
      EqualTo(cmp, p, SortItems(params, items)) == EqualTo(cmp, p, items)
  {
    ComparatorConsistent(MethodOf(params.sort));
    ConsistentEqualClass(ComparatorOf(MethodOf(params.sort)), p);
    StableSortStable(ComparatorOf(MethodOf(params.sort)), p, items);
  }
}
