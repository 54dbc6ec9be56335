/**
 * `findMatchingItem` and `compareArrays` of the comparison view: both
 * arrays sorted by the chosen key, each item of the first matched against
 * the second and classified, then each item of the second without a
 * counterpart in the first reported as an addition.
 */
module Comparison {
  import opened Wrappers
  import opened JsonValues
  import opened Types
  import opened Sequences
  import opened Equality
  import opened Differences
  import opened Sorting
  import opened Paths

  /**
   * Whether `candidate` is a counterpart of `item`: deep-equal under the
   * sort key "none", `===` on the values the key path finds otherwise.
   */
  predicate Corresponds(item: Json, candidate: Json, sortKey: string) {
    if sortKey == NoSort then DeepEqual(item, candidate)
    else StrictEquals(PathValue(item, sortKey), PathValue(candidate, sortKey))
  }

  /** The test handed to `find`, with the item's key resolved once, as the source does. */
  function MatchRule(item: Json, sortKey: string): Json -> bool {
    if sortKey == NoSort then (x: Json) => DeepEqual(item, x)
    else
      var itemKey := PathValue(item, sortKey);
      (x: Json) => StrictEquals(itemKey, PathValue(x, sortKey))
  }

  /** `findMatchingItem(item, array, sortKey)` */
  function FindMatchingItem(item: Json, items: seq<Json>, sortKey: string): Option<Json> {
    Find(items, MatchRule(item, sortKey))
  }

  /**
   * No match exactly when no element corresponds; otherwise the match is
   * the element at the first index that corresponds, so later duplicates
   * are never reached.
   */
  lemma FindMatchingItemSpec(item: Json, items: seq<Json>, sortKey: string)
    ensures FindMatchingItem(item, items, sortKey).None? <==>
      forall i :: 0 <= i < |items| ==> !Corresponds(item, items[i], sortKey)
    ensures FindMatchingItem(item, items, sortKey).Some? ==>
      exists i :: 0 <= i < |items| && items[i] == FindMatchingItem(item, items, sortKey).value &&
        Corresponds(item, items[i], sortKey) && forall j :: 0 <= j < i ==> !Corresponds(item, items[j], sortKey)
  {
    FindSpec(items, MatchRule(item, sortKey));
  }

  /** Items whose key path finds nothing match the first element whose key path finds nothing either. */
  lemma MissingKeysMatch(item: Json, items: seq<Json>, sortKey: string, i: nat)
    requires sortKey != NoSort && i < |items|
    requires PathValue(item, sortKey).None? && PathValue(items[i], sortKey).None?
    ensures FindMatchingItem(item, items, sortKey).Some?
    ensures PathValue(FindMatchingItem(item, items, sortKey).value, sortKey).None?
  {
    FindMatchingItemSpec(item, items, sortKey);
    assert Corresponds(item, items[i], sortKey);
  }

  /**
   * Matching removes nothing from the candidates: two items with the same
   * key get the same match.
   */
  lemma SameKeySameMatch(a: Json, b: Json, items: seq<Json>, sortKey: string)
    requires sortKey != NoSort && StrictEquals(PathValue(a, sortKey), PathValue(b, sortKey))
    ensures FindMatchingItem(a, items, sortKey) == FindMatchingItem(b, items, sortKey)
  {
    assert PathValue(a, sortKey) == PathValue(b, sortKey);
    FindAgrees(items, MatchRule(a, sortKey), MatchRule(b, sortKey));
  }

  /** Where the items of the first array land, in the order they were visited. */
  datatype Buckets = Buckets(deletions: seq<Json>, identical: seq<Json>, modifications: seq<ModifiedItem>)

  /**
   * One item and its match: no truthy match makes a deletion, a deep-equal
   * match an identical item, any other match a modification carrying the
   * differences `diff` finds from the item to its match.
   */
  function Place(b: Buckets, item: Json, found: Option<Json>, diff: (Json, Json) -> seq<Difference>): Buckets {
    if !Truthy(found) then b.(deletions := b.deletions + [item])
    else if DeepEqual(item, found.value) then b.(identical := b.identical + [item])
    else b.(modifications := b.modifications + [ModifiedItem(item, found.value, diff(item, found.value))])
  }

  /** The items placed one after the other, each with the match `matchOf` finds for it. */
  function ClassifyBy(items: seq<Json>, matchOf: Json -> Option<Json>, diff: (Json, Json) -> seq<Difference>): Buckets
    decreases |items|
  {
    if items == [] then Buckets([], [], [])
    else
      var n := |items| - 1;
      Place(ClassifyBy(items[..n], matchOf, diff), items[n], matchOf(items[n]), diff)
  }

  /** `findMatchingItem(_, others, sortKey)` */
  function MatchIn(others: seq<Json>, sortKey: string): Json -> Option<Json> {
    (x: Json) => FindMatchingItem(x, others, sortKey)
  }

  /** `findDifferences(a, b)` from the root path. */
  function RootDiff(a: Json, b: Json): seq<Difference> {
    Diff(a, b, "")
  }

  /** The first loop of `compareArrays` over `items`, matching against `others`. */
  function Classify(items: seq<Json>, others: seq<Json>, sortKey: string): Buckets {
    ClassifyBy(items, MatchIn(others, sortKey), RootDiff)
  }

  /** The items that find no truthy match among `others`. */
  function Unmatched(others: seq<Json>, sortKey: string): Json -> bool {
    (x: Json) => !Truthy(FindMatchingItem(x, others, sortKey))
  }

  /** What `compareArrays(arr1, arr2, sortKey, queries)` returns. */
  function ComparisonOf(arr1: seq<Json>, arr2: seq<Json>, sortKey: string, queries: Queries): ComparisonResult {
    var sorted1 := SortArray(arr1, sortKey);
    var sorted2 := SortArray(arr2, sortKey);
    var b := Classify(sorted1, sorted2, sortKey);
    ComparisonResult(
      Filter(sorted2, Unmatched(sorted1, sortKey)),
      b.deletions, b.modifications, b.identical,
      |arr1| + |arr2|, |sorted1| + |sorted2|, queries)
  }

  /** `compareArrays`, the two loops that push into the result. */
  method CompareArrays(arr1: seq<Json>, arr2: seq<Json>, sortKey: string, queries: Queries)
    returns (result: ComparisonResult)
    ensures result == ComparisonOf(arr1, arr2, sortKey, queries)
  {
    var sorted1 := SortArray(arr1, sortKey);
    var sorted2 := SortArray(arr2, sortKey);
    result := ComparisonResult([], [], [], [], |arr1| + |arr2|, |sorted1| + |sorted2|, queries);
    for i := 0 to |sorted1|
      invariant Buckets(result.deletions, result.identical, result.modifications) == Classify(sorted1[..i], sorted2, sortKey)
      invariant result.additions == [] && result.originalCount == |arr1| + |arr2|
      invariant result.filteredCount == |sorted1| + |sorted2| && result.queries == queries
    {
      assert sorted1[..i + 1][..i] == sorted1[..i];
      var item1 := sorted1[i];
      var matchingItem := FindMatchingItem(item1, sorted2, sortKey);
      if !Truthy(matchingItem) {
        result := result.(deletions := result.deletions + [item1]);
      } else if DeepEqual(item1, matchingItem.value) {
        result := result.(identical := result.identical + [item1]);
      } else {
        var differences := FindDifferences(item1, matchingItem.value, "");
        result := result.(modifications := result.modifications + [ModifiedItem(item1, matchingItem.value, differences)]);
      }
    }
    assert sorted1[..|sorted1|] == sorted1;
    for i := 0 to |sorted2|
      invariant result.additions == Filter(sorted2[..i], Unmatched(sorted1, sortKey))
      invariant Buckets(result.deletions, result.identical, result.modifications) == Classify(sorted1, sorted2, sortKey)
      invariant result.originalCount == |arr1| + |arr2|
      invariant result.filteredCount == |sorted1| + |sorted2| && result.queries == queries
    {
      FilterSnoc(sorted2, i, Unmatched(sorted1, sortKey));
      var item2 := sorted2[i];
      var matchingItem := FindMatchingItem(item2, sorted1, sortKey);
      if !Truthy(matchingItem) {
        result := result.(additions := result.additions + [item2]);
      }
    }
    assert sorted2[..|sorted2|] == sorted2;
  }

  /** The originals of the modifications. */
  function Originals(ms: seq<ModifiedItem>): (r: seq<Json>)
    ensures |r| == |ms| && forall i :: 0 <= i < |ms| ==> r[i] == ms[i].original
  {
    seq(|ms|, i requires 0 <= i < |ms| => ms[i].original)
  }

  /** The items the buckets hold, originals of the modifications included. */
  function Content(b: Buckets): multiset<Json> {
    multiset(b.deletions) + multiset(b.identical) + multiset(Originals(b.modifications))
  }

  function Size(b: Buckets): nat {
    |b.deletions| + |b.identical| + |b.modifications|
  }

  /** Placing an item puts it in exactly one bucket. */
  lemma PlaceAddsOne(b: Buckets, item: Json, found: Option<Json>, diff: (Json, Json) -> seq<Difference>)
    ensures Content(Place(b, item, found, diff)) == Content(b) + multiset{item}
    ensures Size(Place(b, item, found, diff)) == Size(b) + 1
  {
    if Truthy(found) && !DeepEqual(item, found.value) {
      var ms := b.modifications + [ModifiedItem(item, found.value, diff(item, found.value))];
      assert Originals(ms) == Originals(b.modifications) + [item];
    }
  }

  /** Every item lands in exactly one bucket: together the buckets hold the items, as a multiset. */
  lemma {:induction false} ClassifyPartition(items: seq<Json>, matchOf: Json -> Option<Json>, diff: (Json, Json) -> seq<Difference>)
    ensures Content(ClassifyBy(items, matchOf, diff)) == multiset(items)
    ensures Size(ClassifyBy(items, matchOf, diff)) == |items|
    decreases |items|
  {
    if items != [] {
      var n := |items| - 1;
      var b := ClassifyBy(items[..n], matchOf, diff);
      ClassifyPartition(items[..n], matchOf, diff);
      MultisetOfSnoc(items);
      PlaceAddsOne(b, items[n], matchOf(items[n]), diff);
    }
  }

  lemma MultisetOfSnoc(items: seq<Json>)
    requires items != []
    ensures multiset(items) == multiset(items[..|items| - 1]) + multiset{items[|items| - 1]}
  {
    assert items == items[..|items| - 1] + [items[|items| - 1]];
  }

  /** Which bucket an item lands in, decided by its match alone. */
  lemma {:induction false} ClassifyMembers(items: seq<Json>, matchOf: Json -> Option<Json>, diff: (Json, Json) -> seq<Difference>)
    ensures forall x :: x in ClassifyBy(items, matchOf, diff).deletions <==> x in items && !Truthy(matchOf(x))
    ensures forall x :: x in ClassifyBy(items, matchOf, diff).identical <==>
      x in items && Truthy(matchOf(x)) && DeepEqual(x, matchOf(x).value)
    ensures forall md :: md in ClassifyBy(items, matchOf, diff).modifications ==>
      && md.original in items
      && Truthy(matchOf(md.original))
      && md.modified == matchOf(md.original).value
      && !DeepEqual(md.original, md.modified)
      && md.differences == diff(md.original, md.modified)
    decreases |items|
  {
    if items != [] {
      var n := |items| - 1;
      ClassifyMembers(items[..n], matchOf, diff);
      assert items == items[..n] + [items[n]];
    }
  }

  /** An item without a deep-equal match is reported as modified against its match. */
  lemma {:induction false} ClassifyModified(items: seq<Json>, matchOf: Json -> Option<Json>, diff: (Json, Json) -> seq<Difference>, x: Json)
    requires x in items && Truthy(matchOf(x)) && !DeepEqual(x, matchOf(x).value)
    ensures ModifiedItem(x, matchOf(x).value, diff(x, matchOf(x).value)) in ClassifyBy(items, matchOf, diff).modifications
    decreases |items|
  {
    var n := |items| - 1;
    assert items == items[..n] + [items[n]];
    if x != items[n] {
      ClassifyModified(items[..n], matchOf, diff, x);
    }
  }

  /**
   * `compareArrays`: the deletions, identical items and modifications hold
   * the first array's items, each once; additions are the items of the
   * second array without a truthy match in the sorted first array; both
   * counts are the sum of the lengths.
   */
  lemma ComparisonSpec(arr1: seq<Json>, arr2: seq<Json>, sortKey: string, queries: Queries)
    ensures var r := ComparisonOf(arr1, arr2, sortKey, queries);
      multiset(r.deletions) + multiset(r.identical) + multiset(Originals(r.modifications)) == multiset(arr1)
    ensures var r := ComparisonOf(arr1, arr2, sortKey, queries);
      |r.deletions| + |r.identical| + |r.modifications| == |arr1|
    ensures var r := ComparisonOf(arr1, arr2, sortKey, queries);
      forall x :: x in r.additions <==> x in arr2 && !Truthy(FindMatchingItem(x, SortArray(arr1, sortKey), sortKey))
    ensures var r := ComparisonOf(arr1, arr2, sortKey, queries);
      r.originalCount == r.filteredCount == |arr1| + |arr2|
    ensures ComparisonOf(arr1, arr2, sortKey, queries).queries == queries
  {
    var sorted1 := SortArray(arr1, sortKey);
    var sorted2 := SortArray(arr2, sortKey);
    SortArraySpec(arr1, sortKey);
    SortArraySpec(arr2, sortKey);
    ClassifyPartition(sorted1, MatchIn(sorted2, sortKey), RootDiff);
    forall x ensures x in Filter(sorted2, Unmatched(sorted1, sortKey)) <==>
      x in arr2 && !Truthy(FindMatchingItem(x, sorted1, sortKey))
    {
      FilterMembers(sorted2, Unmatched(sorted1, sortKey), x);
      assert x in sorted2 <==> x in multiset(sorted2);
    }
  }

  /**
   * The additions are the items of the sorted second array without a truthy
   * match, in that order; as a multiset they are the items of the second
   * array as given without one, each as often as it occurs there, so two
   * equal unmatched items are both added. Under "none" the order is the
   * given order.
   */
  lemma AdditionsSpec(arr1: seq<Json>, arr2: seq<Json>, sortKey: string, queries: Queries)
    ensures ComparisonOf(arr1, arr2, sortKey, queries).additions ==
      Filter(SortArray(arr2, sortKey), Unmatched(SortArray(arr1, sortKey), sortKey))
    ensures multiset(ComparisonOf(arr1, arr2, sortKey, queries).additions) ==
      multiset(Filter(arr2, Unmatched(SortArray(arr1, sortKey), sortKey)))
    ensures sortKey == NoSort ==>
      ComparisonOf(arr1, arr2, sortKey, queries).additions == Filter(arr2, Unmatched(arr1, NoSort))
  {
    SortArraySpec(arr1, sortKey);
    SortArraySpec(arr2, sortKey);
    FilterPermutation(SortArray(arr2, sortKey), arr2, Unmatched(SortArray(arr1, sortKey), sortKey));
  }

  /** Filtering a permutation gives a permutation of the filter. */
  lemma FilterPermutation(xs: seq<Json>, ys: seq<Json>, p: Json -> bool)
    requires multiset(xs) == multiset(ys)
    ensures multiset(Filter(xs, p)) == multiset(Filter(ys, p))
  {
    forall x ensures multiset(Filter(xs, p))[x] == multiset(Filter(ys, p))[x] {
      FilterMultiplicity(xs, p, x);
      FilterMultiplicity(ys, p, x);
    }
  }

  /** Under the sort key "none" a match is deep-equal by definition, so nothing is modified. */
  lemma NoSortHasNoModifications(arr1: seq<Json>, arr2: seq<Json>, queries: Queries)
    ensures ComparisonOf(arr1, arr2, NoSort, queries).modifications == []
  {
    var sorted1 := SortArray(arr1, NoSort);
    var sorted2 := SortArray(arr2, NoSort);
    var ms := Classify(sorted1, sorted2, NoSort).modifications;
    ClassifyMembers(sorted1, MatchIn(sorted2, NoSort), RootDiff);
    if ms != [] {
      var md := ms[0];
      assert md in ms;
      FindMatchingItemSpec(md.original, sorted2, NoSort);
      assert false;
    }
  }

  /** Without a sort key, a primitive item's match is the item itself, if the other array holds it. */
  lemma PrimitiveMatch(v: Json, items: seq<Json>)
    requires !v.Arr? && !v.Obj?
    ensures FindMatchingItem(v, items, NoSort) == if v in items then Some(v) else None
  {
    FindMatchingItemSpec(v, items, NoSort);
    assert forall i :: 0 <= i < |items| ==> (Corresponds(v, items[i], NoSort) <==> items[i] == v);
  }

  /**
   * The documented example: `[1,2,3,4]` against `[1,2,4,5]` without a sort
   * key deletes 3, adds 5 and keeps 1, 2 and 4.
   */
  lemma DocumentedExample(arr1: seq<Json>, arr2: seq<Json>, queries: Queries)
    requires arr1 == [Num(1), Num(2), Num(3), Num(4)] && arr2 == [Num(1), Num(2), Num(4), Num(5)]
    ensures var r := ComparisonOf(arr1, arr2, NoSort, queries);
      r.deletions == [Num(3)] && r.additions == [Num(5)] && r.identical == [Num(1), Num(2), Num(4)] &&
      r.modifications == [] && r.originalCount == 8
  {
    ClassifyPrimitives(arr1, arr2, RootDiff);
    AdditionsOfPrimitives(arr2, arr1);
    DocumentedFilters(arr1, arr2);
  }

  /** The three filters of the documented example. */
  lemma DocumentedFilters(arr1: seq<Json>, arr2: seq<Json>)
    requires arr1 == [Num(1), Num(2), Num(3), Num(4)] && arr2 == [Num(1), Num(2), Num(4), Num(5)]
    ensures Filter(arr1, Absent(arr2)) == [Num(3)]
    ensures Filter(arr1, Present(arr2)) == [Num(1), Num(2), Num(4)]
    ensures Filter(arr2, Absent(arr1)) == [Num(5)]
  {
    FilterOfFour(arr1, Absent(arr2));
    FilterOfFour(arr1, Present(arr2));
    FilterOfFour(arr2, Absent(arr1));
  }

  /** A filter over four elements, spelt out. */
  lemma FilterOfFour<T>(xs: seq<T>, p: T -> bool)
    requires |xs| == 4
    ensures Filter(xs, p) ==
      (if p(xs[0]) then [xs[0]] else []) + (if p(xs[1]) then [xs[1]] else []) +
      (if p(xs[2]) then [xs[2]] else []) + (if p(xs[3]) then [xs[3]] else [])
  {
    FilterFrom(xs, 3, p);
    FilterFrom(xs, 2, p);
    FilterFrom(xs, 1, p);
    FilterFrom(xs, 0, p);
    assert xs[4..] == [] && xs[0..] == xs;
  }

  /** One more item: its match decides where it goes. */
  lemma ClassifySnoc(items: seq<Json>, x: Json, matchOf: Json -> Option<Json>, diff: (Json, Json) -> seq<Difference>)
    ensures ClassifyBy(items + [x], matchOf, diff) == Place(ClassifyBy(items, matchOf, diff), x, matchOf(x), diff)
  {
    assert (items + [x])[..|items|] == items;
  }

  /** A primitive the other array holds and JavaScript counts as true. */
  function Present(others: seq<Json>): Json -> bool {
    (x: Json) => x in others && Truthy(Some(x))
  }

  function Absent(others: seq<Json>): Json -> bool {
    (x: Json) => !(x in others && Truthy(Some(x)))
  }

  /**
   * Without a sort key, primitive items are identical exactly when the
   * other array holds them and they are truthy, and deleted otherwise.
   */
  lemma {:induction false} ClassifyPrimitives(items: seq<Json>, others: seq<Json>, diff: (Json, Json) -> seq<Difference>)
    requires forall i :: 0 <= i < |items| ==> !items[i].Arr? && !items[i].Obj?
    ensures ClassifyBy(items, MatchIn(others, NoSort), diff) ==
      Buckets(Filter(items, Absent(others)), Filter(items, Present(others)), [])
    decreases |items|
  {
    if items != [] {
      var n := |items| - 1;
      var v := items[n];
      ClassifyPrimitives(items[..n], others, diff);
      assert items == items[..n] + [v];
      FilterAppend(items[..n], [v], Absent(others));
      FilterAppend(items[..n], [v], Present(others));
      assert [v][1..] == [];
      PrimitiveMatch(v, others);
      ClassifySnoc(items[..n], v, MatchIn(others, NoSort), diff);
      DeepEqualReflexive(v);
    }
  }

  /** Without a sort key, the primitive additions are the items the first array lacks or that are falsy. */
  lemma {:induction false} AdditionsOfPrimitives(items: seq<Json>, others: seq<Json>)
    requires forall i :: 0 <= i < |items| ==> !items[i].Arr? && !items[i].Obj?
    ensures Filter(items, Unmatched(others, NoSort)) == Filter(items, Absent(others))
    decreases |items|
  {
    if items != [] {
      AdditionsOfPrimitives(items[1..], others);
      PrimitiveMatch(items[0], others);
    }
  }

  /**
   * A falsy item is its own match, yet the falsy match counts as no match:
   * `[0]` against `[0]` reports 0 as both deleted and added.
   */
  lemma FalsyMatchIsNoMatch(arr: seq<Json>, queries: Queries)
    requires arr == [Num(0)]
    ensures FindMatchingItem(Num(0), arr, NoSort) == Some(Num(0))
    ensures var r := ComparisonOf(arr, arr, NoSort, queries);
      r.deletions == arr && r.additions == arr && r.identical == []
  {
    PrimitiveMatch(Num(0), arr);
    ClassifyPrimitives(arr, arr, RootDiff);
    AdditionsOfPrimitives(arr, arr);
    assert arr[1..] == [];
  }
}
