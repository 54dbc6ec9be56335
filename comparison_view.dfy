/**
 * The two helpers the comparison view draws from the engine: `getSortKeys`,
 * the key paths offered for sorting and matching, and `getDiffItems`, the
 * rows of the result list.
 */
module ComparisonView {
  import opened Wrappers
  import opened JsonValues
  import opened Types
  import opened Sequences
  import opened Differences
  import opened Sorting
  import Comparison

  // ---------------------------------------------------------------------------
  // getSortKeys
  // ---------------------------------------------------------------------------

  /** A value `extractKeys` records as a key: anything but an array or an object, null included. */
  predicate IsScalar(v: Json) {
    !v.Arr? && !v.Obj?
  }

  /** The key paths one property contributes: its own path for a scalar, the paths below it for an object. */
  function MemberPaths(obj: Json, prefix: string, key: string): seq<string>
    decreases obj, 0, 0
  {
    match Member(obj, key)
    case None => []
    case Some(v) =>
      if IsScalar(v) then [KeyPath(prefix, key)]
      else if v.Obj? then LeafPaths(v, KeyPath(prefix, key))
      else []
  }

  /** The key paths of the given properties, one property after the other. */
  function KeysPaths(obj: Json, prefix: string, keys: seq<string>): seq<string>
    decreases obj, 1, |keys|
  {
    if keys == [] then []
    else KeysPaths(obj, prefix, keys[..|keys| - 1]) + MemberPaths(obj, prefix, keys[|keys| - 1])
  }

  /** The key paths `extractKeys(obj, prefix)` adds, in the order it adds them. */
  function LeafPaths(obj: Json, prefix: string): seq<string>
    decreases obj, 2, 0
  {
    if obj.Obj? then KeysPaths(obj, prefix, Keys(obj.fields)) else []
  }

  /** The key paths of every item, item after item. */
  function ItemsPaths(items: seq<Json>): seq<string>
    decreases |items|
  {
    if items == [] then [] else ItemsPaths(items[..|items| - 1]) + LeafPaths(items[|items| - 1], "")
  }

  /** What `getSortKeys` returns for the parsed first array, or for input that did not parse. */
  function SortKeysOf(parsed: Option<seq<Json>>): seq<string> {
    if parsed.None? || |parsed.value| == 0 then [NoSort]
    else AddAll([NoSort], ItemsPaths(parsed.value))
  }

  /** `extractKeys(obj, prefix)`, adding to the set `keys`. */
  method ExtractKeys(obj: Json, prefix: string, keys: seq<string>) returns (r: seq<string>)
    ensures r == AddAll(keys, LeafPaths(obj, prefix))
    decreases obj
  {
    r := keys;
    if TypeOf(Some(obj)) == "object" && !obj.Null? && !obj.Arr? {
      var names := Keys(obj.fields);
      for i := 0 to |names|
        invariant r == AddAll(keys, KeysPaths(obj, prefix, names[..i]))
      {
        assert names[..i + 1][..i] == names[..i];
        var key := names[i];
        var fullKey := KeyPath(prefix, key);
        assert obj.fields[i].0 == key;
        var value := Member(obj, key).value;
        AddAllAppend(keys, KeysPaths(obj, prefix, names[..i]), MemberPaths(obj, prefix, key));
        if TypeOf(Some(value)) != "object" || value.Null? {
          assert [fullKey][..0] == [];
          r := AddNew(r, fullKey);
        } else if !value.Arr? {
          r := ExtractKeys(value, fullKey, r);
        }
      }
      assert names[..|names|] == names;
    }
  }

  /** `getSortKeys()` over the parsed first array; `None` when it did not parse. */
  method GetSortKeys(parsed: Option<seq<Json>>) returns (keys: seq<string>)
    ensures keys == SortKeysOf(parsed)
  {
    if parsed.None? || |parsed.value| == 0 {
      return [NoSort];
    }
    var items := parsed.value;
    keys := [NoSort];
    for i := 0 to |items|
      invariant keys == AddAll([NoSort], ItemsPaths(items[..i]))
    {
      assert items[..i + 1][..i] == items[..i];
      AddAllAppend([NoSort], ItemsPaths(items[..i]), LeafPaths(items[i], ""));
      keys := ExtractKeys(items[i], "", keys);
    }
    assert items[..|items|] == items;
  }

  /**
   * The keys, one after the other, under an object, each naming a property
   * of the one before, the last a scalar and the others objects.
   */
  predicate ScalarPath(obj: Json, ks: seq<string>)
    decreases |ks|
  {
    && |ks| >= 1
    && obj.Obj?
    && Member(obj, ks[0]).Some?
    && (var v := Member(obj, ks[0]).value;
        if |ks| == 1 then IsScalar(v) else v.Obj? && ScalarPath(v, ks[1..]))
  }

  /** The path a list of keys spells from a prefix, each step as `prefix ? prefix.key : key`. */
  function PathFrom(prefix: string, ks: seq<string>): string
    decreases |ks|
  {
    if ks == [] then prefix else PathFrom(KeyPath(prefix, ks[0]), ks[1..])
  }

  /** A path is among the given properties' paths when it is among one of theirs. */
  lemma {:induction false} KeysPathsInclude(obj: Json, prefix: string, keys: seq<string>, i: nat, p: string)
    requires i < |keys| && p in MemberPaths(obj, prefix, keys[i])
    ensures p in KeysPaths(obj, prefix, keys)
    decreases |keys|
  {
    var init := keys[..|keys| - 1];
    if i < |init| {
      assert init[i] == keys[i];
      KeysPathsInclude(obj, prefix, init, i, p);
    }
  }

  /** A path among the given properties' paths is among one of theirs. */
  lemma {:induction false} KeysPathsMembers(obj: Json, prefix: string, keys: seq<string>, p: string)
    requires p in KeysPaths(obj, prefix, keys)
    ensures exists i :: 0 <= i < |keys| && p in MemberPaths(obj, prefix, keys[i])
    decreases |keys|
  {
    var init := keys[..|keys| - 1];
    if p !in MemberPaths(obj, prefix, keys[|keys| - 1]) {
      KeysPathsMembers(obj, prefix, init, p);
      var i :| 0 <= i < |init| && p in MemberPaths(obj, prefix, init[i]);
      assert keys[i] == init[i];
    }
  }

  /** Every recorded path leads through objects to a scalar. */
  lemma {:induction false} LeafPathsSound(obj: Json, prefix: string, p: string)
    requires p in LeafPaths(obj, prefix)
    ensures exists ks :: ScalarPath(obj, ks) && p == PathFrom(prefix, ks)
    decreases obj
  {
    var names := Keys(obj.fields);
    KeysPathsMembers(obj, prefix, names, p);
    var i :| 0 <= i < |names| && p in MemberPaths(obj, prefix, names[i]);
    var key := names[i];
    var v := Member(obj, key).value;
    var full := KeyPath(prefix, key);
    if IsScalar(v) {
      assert p == full;
      assert PathFrom(prefix, [key]) == PathFrom(full, []);
      assert ScalarPath(obj, [key]);
    } else {
      assert v.Obj? && p in LeafPaths(v, full);
      LeafPathsSound(v, full, p);
      var ks :| ScalarPath(v, ks) && p == PathFrom(full, ks);
      var path := [key] + ks;
      assert path[0] == key && path[1..] == ks;
      assert PathFrom(prefix, path) == PathFrom(full, ks);
      assert ScalarPath(obj, path);
    }
  }

  /** Every path through objects to a scalar is recorded. */
  lemma {:induction false} LeafPathsComplete(obj: Json, prefix: string, ks: seq<string>)
    requires ScalarPath(obj, ks)
    ensures PathFrom(prefix, ks) in LeafPaths(obj, prefix)
    decreases |ks|
  {
    var key := ks[0];
    var names := Keys(obj.fields);
    var j :| 0 <= j < |obj.fields| && obj.fields[j] == (key, Field(obj.fields, key).value);
    assert names[j] == key;
    var v := Member(obj, key).value;
    if |ks| > 1 {
      LeafPathsComplete(v, KeyPath(prefix, key), ks[1..]);
    } else {
      assert ks[1..] == [];
    }
    assert PathFrom(prefix, ks) in MemberPaths(obj, prefix, key);
    KeysPathsInclude(obj, prefix, names, j, PathFrom(prefix, ks));
  }

  /**
   * `getSortKeys`: "none" first, every key once, and besides "none" exactly
   * the paths through nested objects to scalars of some item of the first
   * array.
   */
  lemma SortKeysSpec(parsed: Option<seq<Json>>)
    ensures |SortKeysOf(parsed)| >= 1 && SortKeysOf(parsed)[0] == NoSort
    ensures Distinct(SortKeysOf(parsed))
    ensures forall p :: p in SortKeysOf(parsed) <==>
      p == NoSort || (parsed.Some? && exists i :: 0 <= i < |parsed.value| && p in LeafPaths(parsed.value[i], ""))
  {
    if parsed.Some? && |parsed.value| > 0 {
      var items := parsed.value;
      assert SortKeysOf(parsed) == AddAll([NoSort], ItemsPaths(items));
      AddAllSpec([NoSort], ItemsPaths(items));
      forall p ensures p in ItemsPaths(items) <==> exists i :: 0 <= i < |items| && p in LeafPaths(items[i], "") {
        ItemsPathsMembers(items, p);
      }
    }
  }

  /** A path is among the items' paths exactly when it is among one item's. */
  lemma {:induction false} ItemsPathsMembers(items: seq<Json>, p: string)
    ensures p in ItemsPaths(items) <==> exists i :: 0 <= i < |items| && p in LeafPaths(items[i], "")
    decreases |items|
  {
    if items != [] {
      var init := items[..|items| - 1];
      ItemsPathsMembers(init, p);
      assert p in ItemsPaths(items) <==> p in ItemsPaths(init) || p in LeafPaths(items[|items| - 1], "");
      if exists i :: 0 <= i < |init| && p in LeafPaths(init[i], "") {
        var i :| 0 <= i < |init| && p in LeafPaths(init[i], "");
        assert items[i] == init[i];
      }
      if exists i :: 0 <= i < |items| && p in LeafPaths(items[i], "") {
        var i :| 0 <= i < |items| && p in LeafPaths(items[i], "");
        if i < |init| {
          assert init[i] == items[i];
        }
      }
    }
  }

  /**
   * A recorded path of an item, other than "none", leads through its
   * objects to a scalar, and every such path is recorded.
   */
  lemma LeafPathsSpec(obj: Json, p: string)
    ensures p in LeafPaths(obj, "") <==> exists ks :: ScalarPath(obj, ks) && p == PathFrom("", ks)
  {
    if p in LeafPaths(obj, "") {
      LeafPathsSound(obj, "", p);
    }
    if exists ks :: ScalarPath(obj, ks) && p == PathFrom("", ks) {
      var ks :| ScalarPath(obj, ks) && p == PathFrom("", ks);
      LeafPathsComplete(obj, "", ks);
    }
  }

  // ---------------------------------------------------------------------------
  // getDiffItems
  // ---------------------------------------------------------------------------

  /** One row per item, all of one kind. */
  function Rows(kind: DiffType, xs: seq<Json>): (r: seq<DiffItem>) {
    seq(|xs|, i requires 0 <= i < |xs| => DiffItem(kind, xs[i], None, None))
  }

  /** One row per modification: the modified item, with the differences and the original. */
  function ModificationRows(ms: seq<ModifiedItem>): (r: seq<DiffItem>) {
    seq(|ms|, i requires 0 <= i < |ms| => DiffItem(Modification, ms[i].modified, Some(ms[i].differences), Some(ms[i].original)))
  }

  /** What `getDiffItems` returns: no rows without a result. */
  function DiffItemsOf(result: Option<ComparisonResult>): seq<DiffItem> {
    if result.None? then []
    else
      var r := result.value;
      Rows(Deletion, r.deletions) + Rows(Addition, r.additions) +
      ModificationRows(r.modifications) + Rows(Identical, r.identical)
  }

  /** `getDiffItems()`, the four loops that push the rows. */
  method GetDiffItems(comparisonResult: Option<ComparisonResult>) returns (items: seq<DiffItem>)
    ensures items == DiffItemsOf(comparisonResult)
  {
    if comparisonResult.None? {
      return [];
    }
    var r := comparisonResult.value;
    items := [];
    for i := 0 to |r.deletions|
      invariant items == Rows(Deletion, r.deletions[..i])
    {
      items := items + [DiffItem(Deletion, r.deletions[i], None, None)];
    }
    ghost var before := items;
    for i := 0 to |r.additions|
      invariant items == before + Rows(Addition, r.additions[..i])
    {
      items := items + [DiffItem(Addition, r.additions[i], None, None)];
    }
    before := items;
    for i := 0 to |r.modifications|
      invariant items == before + ModificationRows(r.modifications[..i])
    {
      var mod := r.modifications[i];
      items := items + [DiffItem(Modification, mod.modified, Some(mod.differences), Some(mod.original))];
    }
    before := items;
    for i := 0 to |r.identical|
      invariant items == before + Rows(Identical, r.identical[..i])
    {
      items := items + [DiffItem(Identical, r.identical[i], None, None)];
    }
    assert r.deletions[..|r.deletions|] == r.deletions;
    assert r.additions[..|r.additions|] == r.additions;
    assert r.modifications[..|r.modifications|] == r.modifications;
    assert r.identical[..|r.identical|] == r.identical;
  }

  /** The position of a kind in the list: deletions, additions, modifications, identical. */
  function KindOrder(kind: DiffType): nat {
    match kind
    case Deletion => 0
    case Addition => 1
    case Modification => 2
    case Identical => 3
  }

  /**
   * `getDiffItems`: one row per deletion, addition, modification and
   * identical item, in that order, each row showing its item; a
   * modification row shows the modified item with the original and the
   * differences.
   */
  lemma DiffItemsLayout(r: ComparisonResult)
    ensures var items := DiffItemsOf(Some(r));
      |items| == |r.deletions| + |r.additions| + |r.modifications| + |r.identical|
    ensures var items := DiffItemsOf(Some(r));
      forall i :: 0 <= i < |r.deletions| ==> items[i] == DiffItem(Deletion, r.deletions[i], None, None)
    ensures var items, d := DiffItemsOf(Some(r)), |r.deletions|;
      forall i :: 0 <= i < |r.additions| ==> items[d + i] == DiffItem(Addition, r.additions[i], None, None)
    ensures var items, d := DiffItemsOf(Some(r)), |r.deletions| + |r.additions|;
      forall i :: 0 <= i < |r.modifications| ==>
        items[d + i] == DiffItem(Modification, r.modifications[i].modified,
                                 Some(r.modifications[i].differences), Some(r.modifications[i].original))
    ensures var items, d := DiffItemsOf(Some(r)), |r.deletions| + |r.additions| + |r.modifications|;
      forall i :: 0 <= i < |r.identical| ==> items[d + i] == DiffItem(Identical, r.identical[i], None, None)
    ensures var items := DiffItemsOf(Some(r));
      forall i, j :: 0 <= i < j < |items| ==> KindOrder(items[i].kind) <= KindOrder(items[j].kind)
  {
    var items := DiffItemsOf(Some(r));
    var a := |r.deletions|;
    var b := a + |r.additions|;
    var c := b + |r.modifications|;
    forall i | 0 <= i < |items|
      ensures KindOrder(items[i].kind) == if i < a then 0 else if i < b then 1 else if i < c then 2 else 3
    {
    }
  }

  /** The rows of a comparison: one per item of the first array, and one per addition. */
  lemma DiffItemsOfComparison(arr1: seq<Json>, arr2: seq<Json>, sortKey: string, queries: Queries)
    ensures var r := Comparison.ComparisonOf(arr1, arr2, sortKey, queries);
      |DiffItemsOf(Some(r))| == |arr1| + |r.additions|
  {
    Comparison.ComparisonSpec(arr1, arr2, sortKey, queries);
    DiffItemsLayout(Comparison.ComparisonOf(arr1, arr2, sortKey, queries));
  }
}
