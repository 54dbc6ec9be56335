/**
 * The filter query language's evaluator: which items of an array a parsed
 * query keeps.
 */
module QueryExecutor {
  import opened Wrappers
  import opened Strings
  import opened Sequences
  import opened JsonValues
  import opened Types
  import QueryParser

  // ---------------------------------------------------------------------------
  // Property paths: `path.split(".").reduce(...)`
  // ---------------------------------------------------------------------------

  /**
   * One step of the walk down a path: `current[key]` when `current` is an
   * object that is not an array, undefined otherwise.
   */
  function Step(current: Option<Json>, key: string): Option<Json> {
    match current
    case Some(Obj(fields)) => Field(fields, key)
    case _ => None
  }

  /**
   * The guard of the walk, `current && typeof current === 'object' &&
   * !Array.isArray(current)`, holds exactly for objects.
   */
  lemma StepGuard(current: Option<Json>)
    ensures (Truthy(current) && TypeOf(current) == "object" && !current.value.Arr?)
        <==> (current.Some? && current.value.Obj?)
  {
  }

  /** The walk over the keys of a path, from `current` on. */
  function Walk(current: Option<Json>, keys: seq<string>): Option<Json>
    decreases |keys|
  {
    if keys == [] then current else Walk(Step(current, keys[0]), keys[1..])
  }

  /** `getNestedValue(obj, path)`: the walk over the dot-separated segments of the path. */
  function NestedValue(item: Json, path: string): Option<Json> {
    Walk(Some(item), SplitOn(path, '.'))
  }

  /** Once the walk has reached undefined, it stays there. */
  lemma {:induction false} WalkFromUndefined(keys: seq<string>)
    ensures Walk(None, keys) == None
    decreases |keys|
  {
    if keys != [] {
      WalkFromUndefined(keys[1..]);
    }
  }

  /** Walking two lists of keys one after the other is walking their concatenation. */
  lemma {:induction false} WalkAppend(current: Option<Json>, keys1: seq<string>, keys2: seq<string>)
    ensures Walk(current, keys1 + keys2) == Walk(Walk(current, keys1), keys2)
    decreases |keys1|
  {
    if keys1 == [] {
      assert keys1 + keys2 == keys2;
    } else {
      assert (keys1 + keys2)[1..] == keys1[1..] + keys2;
      WalkAppend(Step(current, keys1[0]), keys1[1..], keys2);
    }
  }

  /**
   * The walk yields undefined as soon as an intermediate value, before the
   * last key, is not an object: a primitive, null, an array or undefined.
   */
  lemma WalkStopsAtNonObject(current: Option<Json>, keys: seq<string>, k: nat)
    requires k < |keys|
    requires !(Walk(current, keys[..k]).Some? && Walk(current, keys[..k]).value.Obj?)
    ensures Walk(current, keys) == None
  {
    assert keys == keys[..k] + keys[k..];
    WalkAppend(current, keys[..k], keys[k..]);
    WalkFromUndefined(keys[k..][1..]);
  }

  /** Nothing can be looked up in an item that is not an object. */
  lemma NestedValueOfNonObject(item: Json, path: string)
    requires !item.Obj?
    ensures NestedValue(item, path) == None
  {
    var keys := SplitOn(path, '.');
    assert keys[..0] == [];
    WalkStopsAtNonObject(Some(item), keys, 0);
  }

  /** A path without a dot names a member of the item. */
  lemma NestedValueOfKey(fields: seq<(string, Json)>, key: string)
    requires '.' !in key
    ensures NestedValue(Obj(fields), key) == Field(fields, key)
  {
    SplitWithoutSeparator(key, '.');
    assert SplitOn(key, '.') == [key];
    assert [key][1..] == [];
    assert Walk(Some(Obj(fields)), [key]) == Walk(Field(fields, key), []);
  }

  /** `a.b` looks up the path `b` in what the path `a` finds. */
  lemma NestedValueDotted(item: Json, a: string, b: string)
    ensures NestedValue(item, a + "." + b) == Walk(NestedValue(item, a), SplitOn(b, '.'))
  {
    SplitAround(a, b, '.');
    WalkAppend(Some(item), SplitOn(a, '.'), SplitOn(b, '.'));
  }

  // ---------------------------------------------------------------------------
  // One condition
  // ---------------------------------------------------------------------------

  /**
   * The test `includes` applies to each element of the array: a
   * case-insensitive substring test when both sides are strings, `===`
   * otherwise.
   */
  function IncludesItem(v: Json, target: Json): bool {
    if v.Str? && target.Str? then HasSubstring(Lower(v.s), Lower(target.s))
    else StrictEquals(Some(v), Some(target))
  }

  /** `condition.value.includes(value)`: some element of the list is `value`. */
  function ListHas(list: seq<Json>, value: Option<Json>): bool {
    Any(list, (x: Json) => StrictEquals(Some(x), value))
  }

  /** `evaluateCondition`: whether `item` satisfies `condition`. */
  function EvaluateCondition(item: Json, condition: QueryCondition): bool {
    var value := NestedValue(item, condition.property);
    var target := condition.value;
    match condition.operator
    case Equal => StrictEquals(value, Some(target))
    case NotEqual => !StrictEquals(value, Some(target))
    case Greater => value.Some? && value.value.Num? && target.Num? && value.value.n > target.n
    case Less => value.Some? && value.value.Num? && target.Num? && value.value.n < target.n
    case GreaterOrEqual => value.Some? && value.value.Num? && target.Num? && value.value.n >= target.n
    case LessOrEqual => value.Some? && value.value.Num? && target.Num? && value.value.n <= target.n
    case Contains => value.Some? && value.value.Str? && HasSubstring(Lower(value.value.s), Lower(ToJsString(target)))
    case StartsWith => value.Some? && value.value.Str? && HasPrefix(Lower(value.value.s), Lower(ToJsString(target)))
    case EndsWith => value.Some? && value.value.Str? && HasSuffix(Lower(value.value.s), Lower(ToJsString(target)))
    case Includes => value.Some? && value.value.Arr? && Any(value.value.items, (v: Json) => IncludesItem(v, target))
    case Exists => !IsNullish(value)
    case NotExists => IsNullish(value)
    case In => target.Arr? && ListHas(target.items, value)
    case NotIn => !target.Arr? || !ListHas(target.items, value)
  }

  /** `!=`, `not exists` and `not in` are the negations of `=`, `exists` and `in`. */
  lemma NegatedOperators(item: Json, c: QueryCondition)
    ensures EvaluateCondition(item, c.(operator := NotEqual)) == !EvaluateCondition(item, c.(operator := Equal))
    ensures EvaluateCondition(item, c.(operator := NotExists)) == !EvaluateCondition(item, c.(operator := Exists))
    ensures EvaluateCondition(item, c.(operator := NotIn)) == !EvaluateCondition(item, c.(operator := In))
  {
  }

  /** Against a value that is not a list, `in` is false and `not in` is true. */
  lemma InNeedsList(item: Json, c: QueryCondition)
    requires !c.value.Arr?
    ensures !EvaluateCondition(item, c.(operator := In))
    ensures EvaluateCondition(item, c.(operator := NotIn))
  {
  }

  /** The numeric comparisons hold only between two numbers, and then they compare them. */
  lemma ComparisonsNeedNumbers(item: Json, c: QueryCondition)
    requires c.operator in {Greater, Less, GreaterOrEqual, LessOrEqual}
    ensures EvaluateCondition(item, c) ==>
      var value := NestedValue(item, c.property);
      value.Some? && value.value.Num? && c.value.Num?
    ensures EvaluateCondition(item, c) <==>
      var value := NestedValue(item, c.property);
      value.Some? && value.value.Num? && c.value.Num? &&
      (c.operator == Greater ==> value.value.n > c.value.n) &&
      (c.operator == Less ==> value.value.n < c.value.n) &&
      (c.operator == GreaterOrEqual ==> value.value.n >= c.value.n) &&
      (c.operator == LessOrEqual ==> value.value.n <= c.value.n)
  {
  }

  /**
   * `contains` holds exactly when the property is a string in which the
   * text of the value occurs, both lower-cased.
   */
  lemma ContainsSpec(item: Json, c: QueryCondition)
    requires c.operator == Contains
    ensures EvaluateCondition(item, c) <==>
      var value := NestedValue(item, c.property);
      value.Some? && value.value.Str? && exists i :: OccursAt(Lower(value.value.s), Lower(ToJsString(c.value)), i)
  {
    var value := NestedValue(item, c.property);
    if value.Some? && value.value.Str? {
      assert EvaluateCondition(item, c) == HasSubstring(Lower(value.value.s), Lower(ToJsString(c.value)));
      HasSubstringSpec(Lower(value.value.s), Lower(ToJsString(c.value)));
    }
  }

  /** `startswith` and `endswith` hold only for string properties. */
  lemma TextOperatorsNeedString(item: Json, c: QueryCondition)
    requires c.operator in {Contains, StartsWith, EndsWith}
    ensures EvaluateCondition(item, c) ==>
      var value := NestedValue(item, c.property);
      value.Some? && value.value.Str?
  {
  }

  /**
   * `includes` holds exactly when the property is an array with an element
   * the value matches: as a case-insensitive substring between strings, by
   * `===` otherwise.
   */
  lemma IncludesSpec(item: Json, c: QueryCondition)
    requires c.operator == Includes
    ensures EvaluateCondition(item, c) <==>
      var value := NestedValue(item, c.property);
      value.Some? && value.value.Arr? &&
      exists i :: 0 <= i < |value.value.items| && IncludesItem(value.value.items[i], c.value)
  {
    var value := NestedValue(item, c.property);
    if value.Some? && value.value.Arr? {
      AnySpec(value.value.items, (v: Json) => IncludesItem(v, c.value));
    }
  }

  /** `in` holds exactly when the value is a list with an element `===` the property. */
  lemma InSpec(item: Json, c: QueryCondition)
    requires c.operator == In
    ensures EvaluateCondition(item, c) <==>
      c.value.Arr? &&
      exists i :: 0 <= i < |c.value.items| && StrictEquals(Some(c.value.items[i]), NestedValue(item, c.property))
  {
    if c.value.Arr? {
      AnySpec(c.value.items, (x: Json) => StrictEquals(Some(x), NestedValue(item, c.property)));
    }
  }

  /**
   * `exists` on a dotted property `head.rest` holds only for an object item
   * whose `head` is itself an object, not an array, a primitive or null; and
   * then exactly when `rest`, read from there, leads to a value that is not
   * null.
   */
  lemma ExistsSpec(item: Json, c: QueryCondition, head: string, rest: string)
    requires c.operator == Exists && c.property == head + "." + rest
    ensures EvaluateCondition(item, c) ==> item.Obj?
    ensures EvaluateCondition(item, c) ==> NestedValue(item, head).Some? && NestedValue(item, head).value.Obj?
    ensures EvaluateCondition(item, c) <==>
      && NestedValue(item, head).Some? && NestedValue(item, head).value.Obj?
      && var value := Walk(NestedValue(item, head), SplitOn(rest, '.')); value.Some? && !value.value.Null?
  {
    NestedValueDotted(item, head, rest);
    var keys := SplitOn(rest, '.');
    assert keys[..0] == [];
    if !(NestedValue(item, head).Some? && NestedValue(item, head).value.Obj?) {
      WalkStopsAtNonObject(NestedValue(item, head), keys, 0);
    }
    if !item.Obj? {
      NestedValueOfNonObject(item, c.property);
    }
  }

  // ---------------------------------------------------------------------------
  // One item: a left fold over the conditions
  // ---------------------------------------------------------------------------

  /** The connective written after `previous` joins the result so far with the next result. */
  function Combine(result: bool, previous: QueryCondition, next: bool): bool {
    if previous.logicalOperator == Some(Or) then result || next else result && next
  }

  /** The result after the first `n` conditions, folded from left to right. */
  function FoldResult(item: Json, conditions: seq<QueryCondition>, n: nat): bool
    requires 1 <= n <= |conditions|
  {
    if n == 1 then EvaluateCondition(item, conditions[0])
    else Combine(FoldResult(item, conditions, n - 1), conditions[n - 2], EvaluateCondition(item, conditions[n - 1]))
  }

  /** Whether `item` satisfies the conditions; no conditions are satisfied by every item. */
  function Matches(item: Json, conditions: seq<QueryCondition>): bool {
    conditions == [] || FoldResult(item, conditions, |conditions|)
  }

  /** `evaluateItem`: the loop that folds the condition results into `result`. */
  method EvaluateItem(item: Json, conditions: seq<QueryCondition>) returns (result: bool)
    ensures result == Matches(item, conditions)
  {
    if |conditions| == 0 {
      return true;
    }
    result := EvaluateCondition(item, conditions[0]);
    for i := 1 to |conditions|
      invariant result == FoldResult(item, conditions, i)
    {
      var condition := conditions[i - 1];
      var nextResult := EvaluateCondition(item, conditions[i]);
      if condition.logicalOperator == Some(Or) {
        result := result || nextResult;
      } else {
        result := result && nextResult;
      }
    }
  }

  /** No condition before the last is followed by OR. */
  predicate AllAnd(conditions: seq<QueryCondition>) {
    forall i :: 0 <= i < |conditions| - 1 ==> conditions[i].logicalOperator != Some(Or)
  }

  /** Every condition before the last is followed by OR. */
  predicate AllOr(conditions: seq<QueryCondition>) {
    forall i :: 0 <= i < |conditions| - 1 ==> conditions[i].logicalOperator == Some(Or)
  }

  /** Folding conditions joined only by AND is their conjunction. */
  lemma {:induction false} FoldAllAnd(item: Json, conditions: seq<QueryCondition>, n: nat)
    requires 1 <= n <= |conditions| && AllAnd(conditions)
    ensures FoldResult(item, conditions, n) <==> forall i :: 0 <= i < n ==> EvaluateCondition(item, conditions[i])
  {
    if n > 1 {
      FoldAllAnd(item, conditions, n - 1);
    }
  }

  /** Folding conditions joined only by OR is their disjunction. */
  lemma {:induction false} FoldAllOr(item: Json, conditions: seq<QueryCondition>, n: nat)
    requires 1 <= n <= |conditions| && AllOr(conditions)
    ensures FoldResult(item, conditions, n) <==> exists i :: 0 <= i < n && EvaluateCondition(item, conditions[i])
  {
    if n > 1 {
      FoldAllOr(item, conditions, n - 1);
    }
  }

  /** Conditions joined only by AND are all satisfied; joined only by OR, one of them is. */
  lemma MatchesAllAndOrAllOr(item: Json, conditions: seq<QueryCondition>)
    requires conditions != []
    ensures AllAnd(conditions) ==>
      (Matches(item, conditions) <==> forall i :: 0 <= i < |conditions| ==> EvaluateCondition(item, conditions[i]))
    ensures AllOr(conditions) ==>
      (Matches(item, conditions) <==> exists i :: 0 <= i < |conditions| && EvaluateCondition(item, conditions[i]))
  {
    if AllAnd(conditions) {
      FoldAllAnd(item, conditions, |conditions|);
    }
    if AllOr(conditions) {
      FoldAllOr(item, conditions, |conditions|);
    }
  }

  /**
   * AND does not bind tighter than OR: `a OR b AND c` is `(a OR b) AND c`,
   * so a false last condition joined by AND rejects the item whatever came
   * before.
   */
  lemma NoPrecedence(item: Json, a: QueryCondition, b: QueryCondition, c: QueryCondition)
    requires a.logicalOperator == Some(Or) && b.logicalOperator == Some(And)
    ensures Matches(item, [a, b, c]) ==
      ((EvaluateCondition(item, a) || EvaluateCondition(item, b)) && EvaluateCondition(item, c))
    ensures !EvaluateCondition(item, c) ==> !Matches(item, [a, b, c])
  {
    var cs := [a, b, c];
    assert FoldResult(item, cs, 2) == (EvaluateCondition(item, a) || EvaluateCondition(item, b));
  }

  // ---------------------------------------------------------------------------
  // The whole array
  // ---------------------------------------------------------------------------

  /** `execute`: an invalid query or one without conditions keeps every item. */
  function Execute(data: seq<Json>, query: ParsedQuery): seq<Json> {
    if !query.isValid || |query.conditions| == 0 then data
    else Filter(data, (item: Json) => Matches(item, query.conditions))
  }

  /** A blank query text, or one that fails to parse, leaves the data as it is. */
  lemma ExecuteUnfiltered(data: seq<Json>, queryString: string)
    requires IsBlank(queryString) || !QueryParser.QueryOf(queryString).isValid
    ensures Execute(data, QueryParser.QueryOf(queryString)) == data
  {
    if IsBlank(queryString) {
      QueryParser.BlankQuery(queryString);
    }
  }

  /**
   * With a valid query that has conditions, an item is kept exactly when it
   * is in the data and satisfies the conditions; the kept items are in their
   * original order, as the result for a concatenation shows, and running the
   * query again changes nothing.
   */
  lemma ExecuteFilters(data: seq<Json>, more: seq<Json>, query: ParsedQuery, x: Json)
    requires query.isValid && query.conditions != []
    ensures x in Execute(data, query) <==> x in data && Matches(x, query.conditions)
    ensures Execute(data + more, query) == Execute(data, query) + Execute(more, query)
    ensures Execute(Execute(data, query), query) == Execute(data, query)
    ensures |Execute(data, query)| <= |data|
  {
    var p := (item: Json) => Matches(item, query.conditions);
    FilterMembers(data, p, x);
    FilterAppend(data, more, p);
    FilterTwice(data, p);
  }

  /** The items a query keeps are all of them exactly when every item satisfies it. */
  lemma ExecuteKeepsAll(data: seq<Json>, query: ParsedQuery)
    requires query.isValid && query.conditions != []
    ensures Execute(data, query) == data <==> forall i :: 0 <= i < |data| ==> Matches(data[i], query.conditions)
  {
    FilterAll(data, (item: Json) => Matches(item, query.conditions));
  }
}
