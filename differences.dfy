/**
 * `findDifferences` of the comparison view: the path-qualified differences
 * between two JSON values, in the order the source enumerates them.
 */
module Differences {
  import opened Wrappers
  import opened Strings
  import opened JsonValues
  import opened Types
  import opened Sequences
  import opened Equality

  /** `${path}[${i}]` */
  function IndexPath(path: string, i: nat): string {
    path + "[" + NatToString(i) + "]"
  }

  /** `path ? `${path}.${key}` : key` */
  function KeyPath(path: string, key: string): string {
    if path == "" then key else path + "." + key
  }

  function Max(x: nat, y: nat): nat {
    if x < y then y else x
  }

  /** `new Set(keys)` read back in order: each key once, where it first occurs. */
  function Unique(keys: seq<string>): seq<string> {
    AddAll([], keys)
  }

  /** `Unique` keeps every key and only those, each once. */
  lemma UniqueSpec(keys: seq<string>)
    ensures forall k :: k in Unique(keys) <==> k in keys
    ensures forall i, j :: 0 <= i < j < |Unique(keys)| ==> Unique(keys)[i] != Unique(keys)[j]
  {
    AddAllSpec([], keys);
  }

  /** `allKeys`: the keys of the first value, then the new keys of the second. */
  function AllKeys(a: Json, b: Json): seq<string> {
    Unique(OwnKeys(a) + OwnKeys(b))
  }

  /**
   * `obj[key]` for a key that `key in obj` finds on an array or an object:
   * an own member, a canonical index, or an array's own `length`.
   */
  function Property(j: Json, key: string): Option<Json> {
    if j.Arr? && key == "length" then Some(Num(|j.items|)) else Member(j, key)
  }

  /** `key in obj` for own properties. */
  predicate HasMember(j: Json, key: string) {
    Property(j, key).Some?
  }

  /** Arrays and objects come before the scalars they hold, an array's length included. */
  function Layer(j: Json): nat {
    if j.Arr? || j.Obj? then 1 else 0
  }

  /** Every key of `AllKeys` names a property of one of the two values. */
  lemma AllKeysAreMembers(a: Json, b: Json)
    requires (a.Arr? || a.Obj?) && (b.Arr? || b.Obj?)
    ensures forall i :: 0 <= i < |AllKeys(a, b)| ==>
      HasMember(a, AllKeys(a, b)[i]) || HasMember(b, AllKeys(a, b)[i])
  {
    UniqueSpec(OwnKeys(a) + OwnKeys(b));
    forall i | 0 <= i < |AllKeys(a, b)|
      ensures HasMember(a, AllKeys(a, b)[i]) || HasMember(b, AllKeys(a, b)[i])
    {
      var k := AllKeys(a, b)[i];
      assert k in OwnKeys(a) + OwnKeys(b);
      var j :| 0 <= j < |OwnKeys(a) + OwnKeys(b)| && (OwnKeys(a) + OwnKeys(b))[j] == k;
      if j < |OwnKeys(a)| {
        OwnKeysAreMembers(a, j);
      } else {
        OwnKeysAreMembers(b, j - |OwnKeys(a)|);
      }
    }
  }

  /** The keys every one of which names a property of `a` or of `b`. */
  predicate KeysOf(a: Json, b: Json, keys: seq<string>) {
    forall i :: 0 <= i < |keys| ==> HasMember(a, keys[i]) || HasMember(b, keys[i])
  }

  /**
   * The differences between two values at `path`: one type change when
   * `typeof` differs; one value change between unequal primitives or null;
   * for two arrays a length change and then each index; otherwise each key
   * of either side, an array against an object included.
   */
  function Diff(a: Json, b: Json, path: string): seq<Difference>
    decreases Layer(a), a, 2
  {
    var ta := TypeOf(Some(a));
    var tb := TypeOf(Some(b));
    if ta != tb then [TypeChanged(path, ta, tb)]
    else if ta != "object" || a.Null? || b.Null? then
      (if StrictEquals(Some(a), Some(b)) then [] else [ValueChanged(path, a, b)])
    else if a.Arr? && b.Arr? then
      Flatten(ArrayParts(a, b, path))
    else
      AllKeysAreMembers(a, b);
      Flatten(KeyParts(a, b, path, AllKeys(a, b)))
  }

  /** The length change between two arrays, if their lengths differ. */
  function LengthEntry(a: Json, b: Json, path: string): seq<Difference>
    requires a.Arr? && b.Arr?
  {
    if |a.items| != |b.items| then [LengthChanged(path, |a.items|, |b.items|)] else []
  }

  /** The length entry, then the entries of each index up to the longer length. */
  function ArrayParts(a: Json, b: Json, path: string): (parts: seq<seq<Difference>>)
    requires a.Arr? && b.Arr?
    ensures |parts| == Max(|a.items|, |b.items|) + 1
    decreases Layer(a), a, 1
  {
    var n := Max(|a.items|, |b.items|);
    [LengthEntry(a, b, path)] + seq(n, i requires 0 <= i < n => IndexDiffs(a, b, path, i))
  }

  /** An index only the second array has, only the first has, or both have. */
  function IndexDiffs(a: Json, b: Json, path: string, i: nat): seq<Difference>
    requires a.Arr? && b.Arr? && i < Max(|a.items|, |b.items|)
    decreases Layer(a), a, 0
  {
    if i >= |a.items| then [ItemAdded(IndexPath(path, i))]
    else if i >= |b.items| then [ItemRemoved(IndexPath(path, i))]
    else Diff(a.items[i], b.items[i], IndexPath(path, i))
  }

  /** The entries of each key. */
  function KeyParts(a: Json, b: Json, path: string, keys: seq<string>): (parts: seq<seq<Difference>>)
    requires KeysOf(a, b, keys)
    ensures |parts| == |keys|
    decreases Layer(a), a, 1
  {
    seq(|keys|, i requires 0 <= i < |keys| => KeyEntry(a, b, path, keys[i]))
  }

  /** A key only the second value has, only the first has, or both have. */
  function KeyEntry(a: Json, b: Json, path: string, key: string): seq<Difference>
    requires HasMember(a, key) || HasMember(b, key)
    decreases Layer(a), a, 0
  {
    var newPath := KeyPath(path, key);
    if !HasMember(a, key) then [PropertyAdded(newPath, Property(b, key).value)]
    else if !HasMember(b, key) then [PropertyRemoved(newPath, Property(a, key).value)]
    else Diff(Property(a, key).value, Property(b, key).value, newPath)
  }

  /** The parts of two arrays: the length entry first, then index by index. */
  lemma ArrayPartAt(a: Json, b: Json, path: string, i: nat)
    requires a.Arr? && b.Arr? && i <= Max(|a.items|, |b.items|)
    ensures ArrayParts(a, b, path)[i] == if i == 0 then LengthEntry(a, b, path) else IndexDiffs(a, b, path, i - 1)
  {
  }

  /** The parts of a key list: key by key. */
  lemma KeyPartAt(a: Json, b: Json, path: string, keys: seq<string>, i: nat)
    requires KeysOf(a, b, keys) && i < |keys|
    ensures KeyParts(a, b, path, keys)[i] == KeyEntry(a, b, path, keys[i])
  {
  }

  /** `findDifferences(obj1, obj2, path)`, the loops that push each entry. */
  method FindDifferences(obj1: Json, obj2: Json, path: string) returns (differences: seq<Difference>)
    ensures differences == Diff(obj1, obj2, path)
    decreases Layer(obj1), obj1
  {
    differences := [];
    if TypeOf(Some(obj1)) != TypeOf(Some(obj2)) {
      differences := differences + [TypeChanged(path, TypeOf(Some(obj1)), TypeOf(Some(obj2)))];
      return;
    }
    if TypeOf(Some(obj1)) != "object" || obj1.Null? || obj2.Null? {
      if !StrictEquals(Some(obj1), Some(obj2)) {
        differences := differences + [ValueChanged(path, obj1, obj2)];
      }
      return;
    }
    if obj1.Arr? && obj2.Arr? {
      ghost var parts := ArrayParts(obj1, obj2, path);
      if |obj1.items| != |obj2.items| {
        differences := differences + [LengthChanged(path, |obj1.items|, |obj2.items|)];
      }
      assert Flatten(parts[..1]) == differences by {
        ArrayPartAt(obj1, obj2, path, 0);
        assert parts[..1][..0] == [];
      }
      var maxLength := Max(|obj1.items|, |obj2.items|);
      for i := 0 to maxLength
        invariant differences == Flatten(parts[..i + 1])
      {
        FlattenSnoc(parts, i + 1);
        ArrayPartAt(obj1, obj2, path, i + 1);
        var newPath := IndexPath(path, i);
        if i >= |obj1.items| {
          differences := differences + [ItemAdded(newPath)];
        } else if i >= |obj2.items| {
          differences := differences + [ItemRemoved(newPath)];
        } else {
          var nested := FindDifferences(obj1.items[i], obj2.items[i], newPath);
          differences := differences + nested;
        }
      }
      assert parts[..maxLength + 1] == parts;
      return;
    }
    var allKeys := AllKeys(obj1, obj2);
    AllKeysAreMembers(obj1, obj2);
    ghost var parts := KeyParts(obj1, obj2, path, allKeys);
    for k := 0 to |allKeys|
      invariant differences == Flatten(parts[..k])
    {
      FlattenSnoc(parts, k);
      KeyPartAt(obj1, obj2, path, allKeys, k);
      var key := allKeys[k];
      var newPath := KeyPath(path, key);
      if !HasMember(obj1, key) {
        differences := differences + [PropertyAdded(newPath, Property(obj2, key).value)];
      } else if !HasMember(obj2, key) {
        differences := differences + [PropertyRemoved(newPath, Property(obj1, key).value)];
      } else {
        var nested := FindDifferences(Property(obj1, key).value, Property(obj2, key).value, newPath);
        differences := differences + nested;
      }
    }
    assert parts[..|allKeys|] == parts;
  }

  // ---------------------------------------------------------------------------
  // Equal values have no differences
  // ---------------------------------------------------------------------------

  /** Within an object with distinct keys, a key's value is the value of its member. */
  lemma MemberIsWf(fs: seq<(string, Json)>, key: string)
    requires Wf(Obj(fs)) && Field(fs, key).Some?
    ensures Wf(Field(fs, key).value)
  {
    var i :| 0 <= i < |fs| && fs[i] == (key, Field(fs, key).value);
  }

  /** `findDifferences` finds nothing between deep-equal values. */
  lemma {:induction false} DiffOfDeepEqual(a: Json, b: Json, path: string)
    requires Wf(a) && Wf(b) && DeepEqual(a, b)
    ensures Diff(a, b, path) == []
    decreases a
  {
    DeepEqualSameKind(a, b);
    match (a, b)
    case (Arr(xs), Arr(ys)) =>
      var parts := ArrayParts(a, b, path);
      forall i | 0 <= i < |parts| ensures parts[i] == [] {
        ArrayPartAt(a, b, path, i);
        if i > 0 {
          DiffOfDeepEqual(xs[i - 1], ys[i - 1], IndexPath(path, i - 1));
        }
      }
      FlattenEmpty(parts);
    case (Obj(fs), Obj(gs)) =>
      var keys := AllKeys(a, b);
      AllKeysAreMembers(a, b);
      UniqueSpec(OwnKeys(a) + OwnKeys(b));
      SameKeys(fs, gs);
      var parts := KeyParts(a, b, path, keys);
      forall m | 0 <= m < |keys| ensures parts[m] == [] {
        KeyPartAt(a, b, path, keys, m);
        var k := keys[m];
        assert k in Keys(fs) + Keys(gs);
        assert k in Keys(fs);
        var i :| 0 <= i < |fs| && fs[i].0 == k;
        MemberIsWf(fs, k);
        MemberIsWf(gs, k);
        DiffOfDeepEqual(Field(fs, k).value, Field(gs, k).value, KeyPath(path, k));
      }
      FlattenEmpty(parts);
    case _ =>
  }

  /** When `typeof` differs, the one difference is the type change, and nothing below is visited. */
  lemma DiffOfTypeChange(a: Json, b: Json, path: string)
    requires TypeOf(Some(a)) != TypeOf(Some(b))
    ensures Diff(a, b, path) == [TypeChanged(path, TypeOf(Some(a)), TypeOf(Some(b)))]
  {
  }

  /**
   * An empty array against an empty object: they are not deep-equal, yet
   * `findDifferences` finds nothing, since it compares them key by key.
   */
  lemma EmptyArrayAgainstEmptyObject(path: string)
    ensures !DeepEqual(Arr([]), Obj([]))
    ensures Diff(Arr([]), Obj([]), path) == []
  {
    assert AllKeys(Arr([]), Obj([])) == [];
  }

  // ---------------------------------------------------------------------------
  // Where the differences are
  // ---------------------------------------------------------------------------

  lemma PrefixTransitive(s: string, t: string, u: string)
    requires HasPrefix(s, t) && HasPrefix(t, u)
    ensures HasPrefix(s, u)
  {
    assert s[..|u|] == s[..|t|][..|u|];
  }

  /** Every difference lies at or under the path it was asked for. */
  lemma {:induction false} DiffUnderPath(a: Json, b: Json, path: string, d: Difference)
    requires d in Diff(a, b, path)
    ensures HasPrefix(d.path, path)
    decreases Layer(a), a, 1
  {
    var ta := TypeOf(Some(a));
    if ta == TypeOf(Some(b)) && ta == "object" && !a.Null? && !b.Null? {
      if a.Arr? && b.Arr? {
        ArrayPartsUnderPath(a, b, path, d);
      } else {
        AllKeysAreMembers(a, b);
        KeyPartsUnderPath(a, b, path, AllKeys(a, b), d);
      }
    }
  }

  lemma {:induction false} ArrayPartsUnderPath(a: Json, b: Json, path: string, d: Difference)
    requires a.Arr? && b.Arr? && d in Flatten(ArrayParts(a, b, path))
    ensures HasPrefix(d.path, path)
    decreases Layer(a), a, 0
  {
    var parts := ArrayParts(a, b, path);
    FlattenMembers(parts, d);
    var i :| 0 <= i < |parts| && d in parts[i];
    ArrayPartAt(a, b, path, i);
    if i > 0 {
      var q := IndexPath(path, i - 1);
      assert q[..|path|] == path;
      if i - 1 < |a.items| && i - 1 < |b.items| {
        DiffUnderPath(a.items[i - 1], b.items[i - 1], q, d);
        PrefixTransitive(d.path, q, path);
      }
    }
  }

  lemma {:induction false} KeyPartsUnderPath(a: Json, b: Json, path: string, keys: seq<string>, d: Difference)
    requires KeysOf(a, b, keys) && d in Flatten(KeyParts(a, b, path, keys))
    ensures HasPrefix(d.path, path)
    decreases Layer(a), a, 0
  {
    var parts := KeyParts(a, b, path, keys);
    FlattenMembers(parts, d);
    var i :| 0 <= i < |parts| && d in parts[i];
    KeyPartAt(a, b, path, keys, i);
    var key := keys[i];
    var q := KeyPath(path, key);
    if path != "" {
      assert q[..|path|] == path;
    }
    if HasMember(a, key) && HasMember(b, key) {
      DiffUnderPath(Property(a, key).value, Property(b, key).value, q, d);
      PrefixTransitive(d.path, q, path);
    }
  }

  // ---------------------------------------------------------------------------
  // Two arrays
  // ---------------------------------------------------------------------------

  /** Between two arrays, the differences are their parts laid end to end. */
  lemma DiffOfArrays(a: Json, b: Json, path: string)
    requires a.Arr? && b.Arr?
    ensures Diff(a, b, path) == Flatten(ArrayParts(a, b, path))
  {
  }

  /** What an index contributes is among the differences of two arrays. */
  lemma IndexDiffsIncluded(a: Json, b: Json, path: string, i: nat, d: Difference)
    requires a.Arr? && b.Arr? && i < Max(|a.items|, |b.items|) && d in IndexDiffs(a, b, path, i)
    ensures d in Diff(a, b, path)
  {
    var parts := ArrayParts(a, b, path);
    ArrayPartAt(a, b, path, i + 1);
    FlattenMembers(parts, d);
    DiffOfArrays(a, b, path);
  }

  /**
   * Between two arrays: an added item at each index only the second has, a
   * removed item at each index only the first has, and the differences of
   * the items at each shared index.
   */
  lemma ArrayDifferences(xs: seq<Json>, ys: seq<Json>, path: string)
    ensures forall i :: |xs| <= i < |ys| ==> ItemAdded(IndexPath(path, i)) in Diff(Arr(xs), Arr(ys), path)
    ensures forall i :: |ys| <= i < |xs| ==> ItemRemoved(IndexPath(path, i)) in Diff(Arr(xs), Arr(ys), path)
    ensures forall i, d :: 0 <= i < |xs| && i < |ys| && d in Diff(xs[i], ys[i], IndexPath(path, i)) ==>
      d in Diff(Arr(xs), Arr(ys), path)
  {
    forall i | |xs| <= i < |ys| ensures ItemAdded(IndexPath(path, i)) in Diff(Arr(xs), Arr(ys), path) {
      IndexDiffsIncluded(Arr(xs), Arr(ys), path, i, ItemAdded(IndexPath(path, i)));
    }
    forall i | |ys| <= i < |xs| ensures ItemRemoved(IndexPath(path, i)) in Diff(Arr(xs), Arr(ys), path) {
      IndexDiffsIncluded(Arr(xs), Arr(ys), path, i, ItemRemoved(IndexPath(path, i)));
    }
    forall i, d | 0 <= i < |xs| && i < |ys| && d in Diff(xs[i], ys[i], IndexPath(path, i))
      ensures d in Diff(Arr(xs), Arr(ys), path)
    {
      IndexDiffsIncluded(Arr(xs), Arr(ys), path, i, d);
    }
  }

  /**
   * Nothing else is reported between two arrays: each difference is the
   * length change, an added item past the end of the first, a removed item
   * past the end of the second, or a difference of the items at a shared
   * index.
   */
  lemma ArrayDifferencesOnly(xs: seq<Json>, ys: seq<Json>, path: string, d: Difference)
    requires d in Diff(Arr(xs), Arr(ys), path)
    ensures || (d == LengthChanged(path, |xs|, |ys|) && |xs| != |ys|)
            || (exists i :: |xs| <= i < |ys| && d == ItemAdded(IndexPath(path, i)))
            || (exists i :: |ys| <= i < |xs| && d == ItemRemoved(IndexPath(path, i)))
            || (exists i :: 0 <= i < |xs| && i < |ys| && d in Diff(xs[i], ys[i], IndexPath(path, i)))
  {
    var a, b := Arr(xs), Arr(ys);
    var parts := ArrayParts(a, b, path);
    FlattenMembers(parts, d);
    var n :| 0 <= n < |parts| && d in parts[n];
    ArrayPartAt(a, b, path, n);
    if n > 0 {
      var i := n - 1;
      if i >= |xs| {
        assert d == ItemAdded(IndexPath(path, i));
      } else if i >= |ys| {
        assert d == ItemRemoved(IndexPath(path, i));
      } else {
        assert d in Diff(xs[i], ys[i], IndexPath(path, i));
      }
    }
  }

  /** The length change is there exactly when the lengths differ. */
  lemma LengthEntrySpec(xs: seq<Json>, ys: seq<Json>, path: string)
    ensures LengthChanged(path, |xs|, |ys|) in Diff(Arr(xs), Arr(ys), path) <==> |xs| != |ys|
  {
    var a, b := Arr(xs), Arr(ys);
    var parts := ArrayParts(a, b, path);
    var entry := LengthChanged(path, |xs|, |ys|);
    FlattenMembers(parts, entry);
    ArrayPartAt(a, b, path, 0);
    if |xs| == |ys| && entry in Flatten(parts) {
      var i :| 0 <= i < |parts| && entry in parts[i];
      ArrayPartAt(a, b, path, i);
      var q := IndexPath(path, i - 1);
      DiffUnderPath(xs[i - 1], ys[i - 1], q, entry);
    }
  }

  // ---------------------------------------------------------------------------
  // Objects, and an array against an object
  // ---------------------------------------------------------------------------

  /**
   * Between two objects, or an array and an object: an added property for
   * each key only the second has, a removed property for each key only the
   * first has, and the differences of the values of each shared key, at
   * `path.key`.
   */
  lemma KeyedDifferences(a: Json, b: Json, path: string)
    requires (a.Arr? || a.Obj?) && (b.Arr? || b.Obj?) && !(a.Arr? && b.Arr?)
    ensures forall k :: k in OwnKeys(b) && HasMember(b, k) && !HasMember(a, k) ==>
      PropertyAdded(KeyPath(path, k), Property(b, k).value) in Diff(a, b, path)
    ensures forall k :: k in OwnKeys(a) && HasMember(a, k) && !HasMember(b, k) ==>
      PropertyRemoved(KeyPath(path, k), Property(a, k).value) in Diff(a, b, path)
    ensures forall k, d ::
      (&& (k in OwnKeys(a) || k in OwnKeys(b)) && HasMember(a, k) && HasMember(b, k)
       && d in Diff(Property(a, k).value, Property(b, k).value, KeyPath(path, k)))
      ==> d in Diff(a, b, path)
  {
    var keys := AllKeys(a, b);
    AllKeysAreMembers(a, b);
    UniqueSpec(OwnKeys(a) + OwnKeys(b));
    var parts := KeyParts(a, b, path, keys);
    forall k | k in OwnKeys(b) && HasMember(b, k) && !HasMember(a, k)
      ensures PropertyAdded(KeyPath(path, k), Property(b, k).value) in Diff(a, b, path)
    {
      assert k in keys;
      var m :| 0 <= m < |keys| && keys[m] == k;
      KeyPartAt(a, b, path, keys, m);
      assert PropertyAdded(KeyPath(path, k), Property(b, k).value) in parts[m];
      FlattenMembers(parts, PropertyAdded(KeyPath(path, k), Property(b, k).value));
    }
    forall k | k in OwnKeys(a) && HasMember(a, k) && !HasMember(b, k)
      ensures PropertyRemoved(KeyPath(path, k), Property(a, k).value) in Diff(a, b, path)
    {
      assert k in keys;
      var m :| 0 <= m < |keys| && keys[m] == k;
      KeyPartAt(a, b, path, keys, m);
      assert PropertyRemoved(KeyPath(path, k), Property(a, k).value) in parts[m];
      FlattenMembers(parts, PropertyRemoved(KeyPath(path, k), Property(a, k).value));
    }
    forall k, d |
        && (k in OwnKeys(a) || k in OwnKeys(b)) && HasMember(a, k) && HasMember(b, k)
        && d in Diff(Property(a, k).value, Property(b, k).value, KeyPath(path, k))
      ensures d in Diff(a, b, path)
    {
      assert k in keys;
      var m :| 0 <= m < |keys| && keys[m] == k;
      KeyPartAt(a, b, path, keys, m);
      assert d in parts[m];
      FlattenMembers(parts, d);
    }
  }

  /**
   * Nothing else is reported between two objects, or an array and an
   * object: each difference is an added property for a key only the second
   * has, a removed property for a key only the first has, or a difference
   * of the values of a key both have, and each such key is an own key of
   * one side.
   */
  lemma KeyedDifferencesOnly(a: Json, b: Json, path: string, d: Difference)
    requires (a.Arr? || a.Obj?) && (b.Arr? || b.Obj?) && !(a.Arr? && b.Arr?)
    requires d in Diff(a, b, path)
    ensures exists k ::
      && (k in OwnKeys(a) || k in OwnKeys(b))
      && (|| (!HasMember(a, k) && HasMember(b, k) && d == PropertyAdded(KeyPath(path, k), Property(b, k).value))
          || (HasMember(a, k) && !HasMember(b, k) && d == PropertyRemoved(KeyPath(path, k), Property(a, k).value))
          || (HasMember(a, k) && HasMember(b, k) && d in Diff(Property(a, k).value, Property(b, k).value, KeyPath(path, k))))
  {
    var keys := AllKeys(a, b);
    AllKeysAreMembers(a, b);
    UniqueSpec(OwnKeys(a) + OwnKeys(b));
    var parts := KeyParts(a, b, path, keys);
    FlattenMembers(parts, d);
    var m :| 0 <= m < |parts| && d in parts[m];
    KeyPartAt(a, b, path, keys, m);
    var k := keys[m];
    assert k in OwnKeys(a) + OwnKeys(b);
  }

  /** Between values that share one key and have no other, the differences are that key's. */
  lemma DiffOfOneKey(a: Json, b: Json, path: string, key: string)
    requires (a.Arr? || a.Obj?) && (b.Arr? || b.Obj?) && !(a.Arr? && b.Arr?)
    requires AllKeys(a, b) == [key]
    ensures HasMember(a, key) || HasMember(b, key)
    ensures Diff(a, b, path) == KeyEntry(a, b, path, key)
  {
    AllKeysAreMembers(a, b);
    var parts := KeyParts(a, b, path, [key]);
    KeyPartAt(a, b, path, [key], 0);
    FlattenSnoc(parts, 0);
    assert parts[..1] == parts && parts[..0] == [];
  }

  /**
   * `key in obj` finds an array's own `length`: an empty array against an
   * object whose one member is `length` compares that member with the
   * array's length, 0, so `[]` against `{"length": 0}` finds nothing and
   * `{"length": 5}` against `[]` reports the length changed from 5 to 0.
   */
  lemma ArrayLengthIsAProperty(empty: Json, lengthOnly: Json, n: int)
    requires empty == Arr([]) && lengthOnly == Obj([("length", Num(n))])
    ensures Diff(empty, lengthOnly, "") == if n == 0 then [] else [ValueChanged("length", Num(0), Num(n))]
    ensures Diff(lengthOnly, empty, "") == if n == 0 then [] else [ValueChanged("length", Num(n), Num(0))]
  {
    assert AddAll([], ["length"]) == ["length"] by {
      assert ["length"][..0] == [];
    }
    assert OwnKeys(empty) + OwnKeys(lengthOnly) == ["length"];
    assert OwnKeys(lengthOnly) + OwnKeys(empty) == ["length"];
    DiffOfOneKey(empty, lengthOnly, "", "length");
    DiffOfOneKey(lengthOnly, empty, "", "length");
  }
}
