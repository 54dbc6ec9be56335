/**
 * The comparison view's property path resolver, `path.split(".")` folded
 * with optional chaining. Unlike the query executor's resolver it also
 * steps into arrays by index.
 */
module Paths {
  import opened Wrappers
  import opened Strings
  import opened JsonValues
  import QueryExecutor

  /** `current?.[key]`: undefined through undefined or null, the own property otherwise. */
  function OptionalStep(current: Option<Json>, key: string): Option<Json> {
    if IsNullish(current) then None else Member(current.value, key)
  }

  function OptionalWalk(current: Option<Json>, keys: seq<string>): Option<Json>
    decreases |keys|
  {
    if keys == [] then current else OptionalWalk(OptionalStep(current, keys[0]), keys[1..])
  }

  /** `getNestedValue(obj, path)` of the comparison view. */
  function PathValue(item: Json, path: string): Option<Json> {
    OptionalWalk(Some(item), SplitOn(path, '.'))
  }

  /** Once the walk has reached undefined, it stays there. */
  lemma {:induction false} OptionalWalkFromUndefined(keys: seq<string>)
    ensures OptionalWalk(None, keys) == None
    decreases |keys|
  {
    if keys != [] {
      OptionalWalkFromUndefined(keys[1..]);
    }
  }

  /** Walking two lists of keys one after the other is walking their concatenation. */
  lemma {:induction false} OptionalWalkAppend(current: Option<Json>, keys1: seq<string>, keys2: seq<string>)
    ensures OptionalWalk(current, keys1 + keys2) == OptionalWalk(OptionalWalk(current, keys1), keys2)
    decreases |keys1|
  {
    if keys1 == [] {
      assert keys1 + keys2 == keys2;
    } else {
      assert (keys1 + keys2)[1..] == keys1[1..] + keys2;
      OptionalWalkAppend(OptionalStep(current, keys1[0]), keys1[1..], keys2);
    }
  }

  /** `a.b` looks up the path `b` in what the path `a` finds. */
  lemma PathValueDotted(item: Json, a: string, b: string)
    ensures PathValue(item, a + "." + b) == OptionalWalk(PathValue(item, a), SplitOn(b, '.'))
  {
    SplitAround(a, b, '.');
    OptionalWalkAppend(Some(item), SplitOn(a, '.'), SplitOn(b, '.'));
  }

  /** Whatever the query executor's walk finds, this walk finds too. */
  lemma {:induction false} WalksAgree(current: Option<Json>, keys: seq<string>)
    requires QueryExecutor.Walk(current, keys).Some?
    ensures OptionalWalk(current, keys) == QueryExecutor.Walk(current, keys)
    decreases |keys|
  {
    if keys != [] {
      if !(current.Some? && current.value.Obj?) {
        QueryExecutor.WalkFromUndefined(keys[1..]);
        assert false;
      }
      WalksAgree(QueryExecutor.Step(current, keys[0]), keys[1..]);
    }
  }

  /**
   * Where the query executor's resolver finds a value, the comparison view's
   * finds the same one.
   */
  lemma PathValueExtendsNestedValue(item: Json, path: string)
    requires QueryExecutor.NestedValue(item, path).Some?
    ensures PathValue(item, path) == QueryExecutor.NestedValue(item, path)
  {
    WalksAgree(Some(item), SplitOn(path, '.'));
  }

  /**
   * The two resolvers differ on arrays: an index path finds an element here
   * and nothing in the query executor.
   */
  lemma PathValueIndexesArrays(xs: seq<Json>, i: nat)
    requires i < |xs|
    ensures PathValue(Arr(xs), NatToString(i)) == Some(xs[i])
    ensures QueryExecutor.NestedValue(Arr(xs), NatToString(i)) == None
  {
    var k := NatToString(i);
    assert '.' !in k;
    SplitWithoutSeparator(k, '.');
    CanonicalIndexOfNatToString(i);
    assert [k][1..] == [];
    assert PathValue(Arr(xs), k) == OptionalWalk(Member(Arr(xs), k), []);
    QueryExecutor.NestedValueOfNonObject(Arr(xs), k);
  }
}
