/**
 * `deepEqual` of the comparison view: structural equality of two JSON
 * values, arrays index by index and objects key by key.
 */
module Equality {
  import opened Wrappers
  import opened JsonValues

  /**
   * `deepEqual(obj1, obj2)`. Primitives compare by value, values of
   * different kinds (an array and an object among them) are different,
   * arrays need equal lengths and equal items, and objects need as many
   * keys, each found in the other object with an equal value.
   */
  function DeepEqual(a: Json, b: Json): bool
    decreases a
  {
    match (a, b)
    case (Null, Null) => true
    case (Bool(x), Bool(y)) => x == y
    case (Num(x), Num(y)) => x == y
    case (Str(x), Str(y)) => x == y
    case (Arr(xs), Arr(ys)) =>
      |xs| == |ys| && forall i :: 0 <= i < |xs| ==> DeepEqual(xs[i], ys[i])
    case (Obj(fs), Obj(gs)) =>
      |fs| == |gs| &&
      forall i :: 0 <= i < |fs| ==>
        Field(gs, fs[i].0).Some? && DeepEqual(Member(a, fs[i].0).value, Field(gs, fs[i].0).value)
    case _ => false
  }

  /** Values of different kinds are never deep-equal; nor are an array and an object. */
  lemma DeepEqualSameKind(a: Json, b: Json)
    requires DeepEqual(a, b)
    ensures a.Null? == b.Null? && a.Bool? == b.Bool? && a.Num? == b.Num?
    ensures a.Str? == b.Str? && a.Arr? == b.Arr? && a.Obj? == b.Obj?
  {
  }

  /** Every value is deep-equal to itself. */
  lemma {:induction false} DeepEqualReflexive(a: Json)
    ensures DeepEqual(a, a)
    decreases a
  {
    match a
    case Arr(xs) =>
      forall i | 0 <= i < |xs| ensures DeepEqual(xs[i], xs[i]) {
        DeepEqualReflexive(xs[i]);
      }
    case Obj(fs) =>
      forall i | 0 <= i < |fs|
        ensures Field(fs, fs[i].0).Some? && DeepEqual(Member(a, fs[i].0).value, Field(fs, fs[i].0).value)
      {
        DeepEqualReflexive(Member(a, fs[i].0).value);
      }
    case _ =>
  }

  /** Deep equality is transitive. */
  lemma {:induction false} DeepEqualTransitive(a: Json, b: Json, c: Json)
    requires DeepEqual(a, b) && DeepEqual(b, c)
    ensures DeepEqual(a, c)
    decreases a
  {
    match (a, b, c)
    case (Arr(xs), Arr(ys), Arr(zs)) =>
      forall i | 0 <= i < |xs| ensures DeepEqual(xs[i], zs[i]) {
        DeepEqualTransitive(xs[i], ys[i], zs[i]);
      }
    case (Obj(fs), Obj(gs), Obj(hs)) =>
      forall i | 0 <= i < |fs|
        ensures Field(hs, fs[i].0).Some? && DeepEqual(Member(a, fs[i].0).value, Field(hs, fs[i].0).value)
      {
        var k := fs[i].0;
        var j :| 0 <= j < |gs| && gs[j] == (k, Field(gs, k).value);
        assert Member(b, gs[j].0) == Field(gs, k);
        DeepEqualTransitive(Member(a, k).value, Field(gs, k).value, Field(hs, k).value);
      }
    case _ =>
  }

  /** The set of member names of an object. */
  function KeySet(fields: seq<(string, Json)>): set<string> {
    set i | 0 <= i < |fields| :: fields[i].0
  }

  /** Distinct member names are as many as the members. */
  lemma {:induction false} KeySetSize(fields: seq<(string, Json)>)
    requires DistinctKeys(fields)
    ensures |KeySet(fields)| == |fields|
    decreases |fields|
  {
    if fields != [] {
      DistinctKeysTail(fields);
      KeySetSize(fields[1..]);
      KeySetCons(fields);
    }
  }

  lemma DistinctKeysTail(fields: seq<(string, Json)>)
    requires fields != [] && DistinctKeys(fields)
    ensures DistinctKeys(fields[1..]) && fields[0].0 !in KeySet(fields[1..])
  {
    var rest := fields[1..];
    forall a, b | 0 <= a < b < |rest| ensures rest[a].0 != rest[b].0 {
      assert rest[a] == fields[a + 1] && rest[b] == fields[b + 1];
    }
  }

  lemma KeySetCons(fields: seq<(string, Json)>)
    requires fields != []
    ensures KeySet(fields) == {fields[0].0} + KeySet(fields[1..])
  {
    var rest := fields[1..];
    forall k | k in KeySet(fields) ensures k in {fields[0].0} + KeySet(rest) {
      var i :| 0 <= i < |fields| && fields[i].0 == k;
      if i > 0 {
        assert rest[i - 1] == fields[i];
      }
    }
    forall k | k in KeySet(rest) ensures k in KeySet(fields) {
      var i :| 0 <= i < |rest| && rest[i].0 == k;
      assert fields[i + 1] == rest[i];
    }
  }

  /** A subset as large as the whole set is the whole set. */
  lemma SubsetOfSameSize<T>(a: set<T>, b: set<T>)
    requires a <= b && |a| == |b|
    ensures a == b
  {
    assert b == a + (b - a);
    assert |b - a| == 0;
  }

  /**
   * Between objects with distinct keys, as many keys of which one side's are
   * all on the other side, the other side's are all on the first side too.
   */
  lemma SameKeys(fs: seq<(string, Json)>, gs: seq<(string, Json)>)
    requires DistinctKeys(fs) && DistinctKeys(gs) && |fs| == |gs|
    requires forall i :: 0 <= i < |fs| ==> Field(gs, fs[i].0).Some?
    ensures forall j :: 0 <= j < |gs| ==> Field(fs, gs[j].0).Some?
  {
    KeySetSize(fs);
    KeySetSize(gs);
    assert KeySet(fs) <= KeySet(gs) by {
      forall k | k in KeySet(fs) ensures k in KeySet(gs) {
        var i :| 0 <= i < |fs| && fs[i].0 == k;
        var j :| 0 <= j < |gs| && gs[j] == (k, Field(gs, k).value);
      }
    }
    SubsetOfSameSize(KeySet(fs), KeySet(gs));
    forall j | 0 <= j < |gs| ensures Field(fs, gs[j].0).Some? {
      assert gs[j].0 in KeySet(gs);
    }
  }

  /** Between values whose objects have distinct keys, deep equality is symmetric. */
  lemma {:induction false} DeepEqualSymmetric(a: Json, b: Json)
    requires Wf(a) && Wf(b) && DeepEqual(a, b)
    ensures DeepEqual(b, a)
    decreases a
  {
    match (a, b)
    case (Arr(xs), Arr(ys)) =>
      forall i | 0 <= i < |ys| ensures DeepEqual(ys[i], xs[i]) {
        DeepEqualSymmetric(xs[i], ys[i]);
      }
    case (Obj(fs), Obj(gs)) =>
      SameKeys(fs, gs);
      forall j | 0 <= j < |gs|
        ensures Field(fs, gs[j].0).Some? && DeepEqual(Member(b, gs[j].0).value, Field(fs, gs[j].0).value)
      {
        var k := gs[j].0;
        var i :| 0 <= i < |fs| && fs[i] == (k, Field(fs, k).value);
        var g :| 0 <= g < |gs| && gs[g] == (k, Field(gs, k).value);
        DeepEqualSymmetric(Field(fs, k).value, Field(gs, k).value);
      }
    case _ =>
  }

  /**
   * The order of an object's members does not matter: two objects with the
   * same members, each with distinct keys, are deep-equal.
   */
  lemma KeyOrderIrrelevant(fs: seq<(string, Json)>, gs: seq<(string, Json)>)
    requires DistinctKeys(fs) && DistinctKeys(gs) && multiset(fs) == multiset(gs)
    ensures DeepEqual(Obj(fs), Obj(gs))
  {
    assert |fs| == |multiset(fs)| == |multiset(gs)| == |gs|;
    forall i | 0 <= i < |fs|
      ensures Field(gs, fs[i].0).Some? && DeepEqual(Member(Obj(fs), fs[i].0).value, Field(gs, fs[i].0).value)
    {
      assert fs[i] in multiset(gs);
      var j :| 0 <= j < |gs| && gs[j] == fs[i];
      FieldOfMember(fs, i);
      FieldOfMember(gs, j);
      DeepEqualReflexive(fs[i].1);
    }
  }
}
