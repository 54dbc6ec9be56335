/**
 * `sortArray` of the comparison view: a sorted copy of an array, ordered
 * by the value each item holds at a property path.
 */
module Sorting {
  import opened Wrappers
  import opened Strings
  import opened Sequences
  import opened JsonValues
  import opened Paths

  /** The key sort word that keeps the input order. */
  const NoSort: string := "none"

  /**
   * Code-unit order on strings, the stand-in for `localeCompare`: negative,
   * zero or positive as `s` comes before, equals or comes after `t`.
   */
  function LexCompare(s: string, t: string): int
    decreases |s|
  {
    if s == [] then (if t == [] then 0 else -1)
    else if t == [] then 1
    else if s[0] < t[0] then -1
    else if s[0] > t[0] then 1
    else LexCompare(s[1..], t[1..])
  }

  /** Swapping the strings flips the sign, and only equal strings compare as zero. */
  lemma {:induction false} LexCompareAntisymmetric(s: string, t: string)
    ensures LexCompare(s, t) == -LexCompare(t, s)
    ensures LexCompare(s, t) == 0 <==> s == t
    decreases |s|
  {
    if s != [] && t != [] && s[0] == t[0] {
      LexCompareAntisymmetric(s[1..], t[1..]);
      if s[1..] == t[1..] {
        assert s == [s[0]] + s[1..] && t == [t[0]] + t[1..];
      }
    }
  }

  /** The code-unit order is transitive. */
  lemma {:induction false} LexCompareTransitive(s: string, t: string, u: string)
    requires LexCompare(s, t) <= 0 && LexCompare(t, u) <= 0
    ensures LexCompare(s, u) <= 0
    decreases |s|
  {
    if s != [] && t != [] && u != [] && s[0] == t[0] && t[0] == u[0] {
      LexCompareTransitive(s[1..], t[1..], u[1..]);
    }
  }

  /**
   * Where a key value stands among the kinds the comparator meets: booleans
   * and numbers compare as numbers, then strings, arrays and objects.
   */
  function Rank(j: Json): nat {
    match j
    case Bool(_) => 0
    case Num(_) => 0
    case Str(_) => 1
    case Arr(_) => 2
    case Obj(_) => 3
    case Null => 4
  }

  /** The number a boolean or a number stands for under `<`. */
  function NumValue(j: Json): int
    requires j.Bool? || j.Num?
  {
    if j.Bool? then (if j.b then 1 else 0) else j.n
  }

  /**
   * The comparator of `sortArray` on two key values: equal keys tie,
   * undefined and null go last, strings compare by code units and numbers
   * by value. Kinds the source's `<` orders inconsistently compare by rank.
   */
  function Compare(a: Option<Json>, b: Option<Json>): int {
    if StrictEquals(a, b) then 0
    else if IsNullish(a) then (if IsNullish(b) then 0 else 1)
    else if IsNullish(b) then -1
    else if a.value.Str? && b.value.Str? then LexCompare(a.value.s, b.value.s)
    else if Rank(a.value) != Rank(b.value) then (if Rank(a.value) < Rank(b.value) then -1 else 1)
    else if Rank(a.value) == 0 then
      (if NumValue(a.value) < NumValue(b.value) then -1
       else if NumValue(a.value) > NumValue(b.value) then 1
       else 0)
    else 0
  }

  /** Swapping the key values flips the sign of the comparison. */
  lemma CompareAntisymmetric(a: Option<Json>, b: Option<Json>)
    ensures Compare(a, b) == -Compare(b, a)
  {
    if a.Some? && b.Some? && a.value.Str? && b.value.Str? {
      LexCompareAntisymmetric(a.value.s, b.value.s);
    }
  }

  /** The comparator is transitive, so together with antisymmetry it is a total preorder. */
  lemma CompareTransitive(a: Option<Json>, b: Option<Json>, c: Option<Json>)
    requires Compare(a, b) <= 0 && Compare(b, c) <= 0
    ensures Compare(a, c) <= 0
  {
    if !IsNullish(a) && !IsNullish(b) && !IsNullish(c) {
      if a.value.Str? && b.value.Str? && c.value.Str? {
        LexCompareAntisymmetric(a.value.s, b.value.s);
        LexCompareAntisymmetric(b.value.s, c.value.s);
        LexCompareTransitive(a.value.s, b.value.s, c.value.s);
      }
    }
  }

  /** A key strictly before one that is not after a third is strictly before the third. */
  lemma CompareStrictTransitive(a: Option<Json>, b: Option<Json>, c: Option<Json>)
    requires Compare(a, b) < 0 && Compare(b, c) <= 0
    ensures Compare(a, c) < 0
  {
    CompareTransitive(a, b, c);
    if Compare(a, c) == 0 {
      CompareAntisymmetric(a, c);
      CompareTransitive(b, c, a);
      CompareAntisymmetric(a, b);
    }
  }

  /** The sort key of an item. */
  function KeyOf(item: Json, sortKey: string): Option<Json> {
    PathValue(item, sortKey)
  }

  /** Every item's key is not after the key of any item behind it. */
  predicate Sorted(s: seq<Json>, sortKey: string) {
    forall i, j :: 0 <= i < j < |s| ==> Compare(KeyOf(s[i], sortKey), KeyOf(s[j], sortKey)) <= 0
  }

  /** Puts `x` into a sorted sequence, behind every item whose key is not after its own. */
  function Insert(x: Json, s: seq<Json>, sortKey: string): seq<Json>
    decreases |s|
  {
    if s == [] then [x]
    else if Compare(KeyOf(x, sortKey), KeyOf(s[0], sortKey)) < 0 then [x] + s
    else [s[0]] + Insert(x, s[1..], sortKey)
  }

  /** A stable sort: the items in order of their keys, ties in input order. */
  function InsertionSort(xs: seq<Json>, sortKey: string): seq<Json>
    decreases |xs|
  {
    if xs == [] then [] else Insert(xs[|xs| - 1], InsertionSort(xs[..|xs| - 1], sortKey), sortKey)
  }

  /** `sortArray(array, sortKey)`: a copy, left in order for `"none"`, sorted otherwise. */
  function SortArray(items: seq<Json>, sortKey: string): seq<Json> {
    if sortKey == NoSort then items else InsertionSort(items, sortKey)
  }

  /** Inserting adds exactly one item. */
  lemma {:induction false} InsertPermutes(x: Json, s: seq<Json>, sortKey: string)
    ensures multiset(Insert(x, s, sortKey)) == multiset(s) + multiset{x}
    decreases |s|
  {
    if s != [] && Compare(KeyOf(x, sortKey), KeyOf(s[0], sortKey)) >= 0 {
      InsertPermutes(x, s[1..], sortKey);
      assert s == [s[0]] + s[1..];
    }
  }

  /** Inserting into a sorted sequence keeps it sorted. */
  lemma {:induction false} InsertSorted(x: Json, s: seq<Json>, sortKey: string)
    requires Sorted(s, sortKey)
    ensures Sorted(Insert(x, s, sortKey), sortKey)
    decreases |s|
  {
    var kx := KeyOf(x, sortKey);
    if s == [] {
    } else if Compare(kx, KeyOf(s[0], sortKey)) < 0 {
      var r := [x] + s;
      forall j | 0 < j < |r| ensures Compare(kx, KeyOf(r[j], sortKey)) <= 0 {
        if j > 1 {
          CompareTransitive(kx, KeyOf(s[0], sortKey), KeyOf(r[j], sortKey));
        }
      }
    } else {
      CompareAntisymmetric(kx, KeyOf(s[0], sortKey));
      assert Sorted(s[1..], sortKey) by {
        forall i, j | 0 <= i < j < |s[1..]|
          ensures Compare(KeyOf(s[1..][i], sortKey), KeyOf(s[1..][j], sortKey)) <= 0
        {
          assert s[1..][i] == s[i + 1] && s[1..][j] == s[j + 1];
        }
      }
      InsertSorted(x, s[1..], sortKey);
      InsertPermutes(x, s[1..], sortKey);
      var rest := Insert(x, s[1..], sortKey);
      forall j | 0 <= j < |rest| ensures Compare(KeyOf(s[0], sortKey), KeyOf(rest[j], sortKey)) <= 0 {
        assert rest[j] in multiset(rest);
        if rest[j] != x {
          assert rest[j] in multiset(s[1..]);
          var k :| 0 <= k < |s[1..]| && s[1..][k] == rest[j];
          assert s[k + 1] == rest[j];
        }
      }
    }
  }

  /** The sort permutes its input into key order. */
  lemma {:induction false} InsertionSortSpec(xs: seq<Json>, sortKey: string)
    ensures multiset(InsertionSort(xs, sortKey)) == multiset(xs)
    ensures Sorted(InsertionSort(xs, sortKey), sortKey)
    decreases |xs|
  {
    if xs != [] {
      var init := xs[..|xs| - 1];
      InsertionSortSpec(init, sortKey);
      InsertPermutes(xs[|xs| - 1], InsertionSort(init, sortKey), sortKey);
      InsertSorted(xs[|xs| - 1], InsertionSort(init, sortKey), sortKey);
      assert xs == init + [xs[|xs| - 1]];
    }
  }

  /**
   * `sortArray` returns a permutation of its input, of the same length, in
   * key order; with `"none"` it is the input order itself.
   */
  lemma SortArraySpec(items: seq<Json>, sortKey: string)
    ensures multiset(SortArray(items, sortKey)) == multiset(items)
    ensures |SortArray(items, sortKey)| == |items|
    ensures sortKey != NoSort ==> Sorted(SortArray(items, sortKey), sortKey)
    ensures sortKey == NoSort ==> SortArray(items, sortKey) == items
  {
    if sortKey != NoSort {
      InsertionSortSpec(items, sortKey);
    }
    assert |multiset(SortArray(items, sortKey))| == |multiset(items)|;
  }

  /** The items whose key ties with `k`. */
  function TiesWith(k: Option<Json>, sortKey: string): Json -> bool {
    (item: Json) => Compare(KeyOf(item, sortKey), k) == 0
  }

  /** Nothing is kept by a filter none of the items passes. */
  lemma FilterNone(xs: seq<Json>, p: Json -> bool)
    requires forall i :: 0 <= i < |xs| ==> !p(xs[i])
    ensures Filter(xs, p) == []
  {
    if Filter(xs, p) != [] {
      FilterMembers(xs, p, Filter(xs, p)[0]);
    }
  }

  /** Behind a key strictly before a sorted sequence, nothing in it ties with that key. */
  lemma NoTiesBehind(kx: Option<Json>, s: seq<Json>, sortKey: string, k: Option<Json>)
    requires Sorted(s, sortKey) && s != []
    requires Compare(kx, KeyOf(s[0], sortKey)) < 0 && Compare(kx, k) == 0
    ensures forall i :: 0 <= i < |s| ==> !TiesWith(k, sortKey)(s[i])
  {
    forall i | 0 <= i < |s| ensures Compare(KeyOf(s[i], sortKey), k) != 0 {
      if i > 0 {
        CompareStrictTransitive(kx, KeyOf(s[0], sortKey), KeyOf(s[i], sortKey));
      }
      CompareAntisymmetric(kx, k);
      if Compare(KeyOf(s[i], sortKey), k) == 0 {
        CompareAntisymmetric(KeyOf(s[i], sortKey), k);
        CompareStrictTransitive(kx, KeyOf(s[i], sortKey), k);
      }
    }
  }

  /** Inserting `x` leaves every class of tied items in input order, with `x` last. */
  lemma {:induction false} InsertStable(x: Json, s: seq<Json>, sortKey: string, k: Option<Json>)
    requires Sorted(s, sortKey)
    ensures Filter(Insert(x, s, sortKey), TiesWith(k, sortKey)) == Filter(s + [x], TiesWith(k, sortKey))
    decreases |s|
  {
    var p := TiesWith(k, sortKey);
    var kx := KeyOf(x, sortKey);
    if s == [] {
    } else if Compare(kx, KeyOf(s[0], sortKey)) < 0 {
      FilterAppend([x], s, p);
      FilterAppend(s, [x], p);
      if p(x) {
        NoTiesBehind(kx, s, sortKey, k);
        FilterNone(s, p);
      }
    } else {
      assert Sorted(s[1..], sortKey) by {
        forall i, j | 0 <= i < j < |s[1..]|
          ensures Compare(KeyOf(s[1..][i], sortKey), KeyOf(s[1..][j], sortKey)) <= 0
        {
          assert s[1..][i] == s[i + 1] && s[1..][j] == s[j + 1];
        }
      }
      InsertStable(x, s[1..], sortKey, k);
      FilterAppend([s[0]], Insert(x, s[1..], sortKey), p);
      FilterAppend([s[0]], s[1..] + [x], p);
      assert s + [x] == [s[0]] + (s[1..] + [x]);
    }
  }

  /**
   * The sort is stable: for every key, the items whose key ties with it come
   * out in the order they went in.
   */
  lemma {:induction false} InsertionSortStable(xs: seq<Json>, sortKey: string, k: Option<Json>)
    ensures Filter(InsertionSort(xs, sortKey), TiesWith(k, sortKey)) == Filter(xs, TiesWith(k, sortKey))
    decreases |xs|
  {
    if xs != [] {
      var p := TiesWith(k, sortKey);
      var init := xs[..|xs| - 1];
      var last := xs[|xs| - 1];
      InsertionSortStable(init, sortKey, k);
      InsertionSortSpec(init, sortKey);
      InsertStable(last, InsertionSort(init, sortKey), sortKey, k);
      FilterAppend(InsertionSort(init, sortKey), [last], p);
      FilterAppend(init, [last], p);
      assert xs == init + [last];
    }
  }
}
