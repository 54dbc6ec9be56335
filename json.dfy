/**
 * JSON values as both engines see them, with the pieces of JavaScript's
 * value model they use: `typeof`, truthiness, `===`, `String()` and property
 * access on arrays and objects.
 */
module JsonValues {
  import opened Wrappers
  import opened Strings

  /**
   * A JSON value. Numbers are integers. An object keeps its members as a
   * sequence, in enumeration order; a missing property is `None` of an
   * `Option<Json>`, never `Null`.
   */
  datatype Json =
    | Null
    | Bool(b: bool)
    | Num(n: int)
    | Str(s: string)
    | Arr(items: seq<Json>)
    | Obj(fields: seq<(string, Json)>)

  /** The member names of an object, in order. */
  function Keys(fields: seq<(string, Json)>): (ks: seq<string>)
    ensures |ks| == |fields| && forall i :: 0 <= i < |fields| ==> ks[i] == fields[i].0
  {
    seq(|fields|, i requires 0 <= i < |fields| => fields[i].0)
  }

  predicate DistinctKeys(fields: seq<(string, Json)>) {
    forall i, j :: 0 <= i < j < |fields| ==> fields[i].0 != fields[j].0
  }

  /** No object holds a key twice, at any depth, as for every JavaScript object. */
  predicate Wf(j: Json) {
    match j
    case Arr(xs) => forall i :: 0 <= i < |xs| ==> Wf(xs[i])
    case Obj(fs) => DistinctKeys(fs) && forall i :: 0 <= i < |fs| ==> Wf(fs[i].1)
    case _ => true
  }

  /** `obj[key]` on an object's members: the value of the member named `key`, or undefined. */
  function Field(fields: seq<(string, Json)>, key: string): (r: Option<Json>)
    ensures r.None? <==> forall i :: 0 <= i < |fields| ==> fields[i].0 != key
    ensures r.Some? ==> exists i :: 0 <= i < |fields| && fields[i] == (key, r.value)
  {
    if fields == [] then None
    else if fields[0].0 == key then Some(fields[0].1)
    else Field(fields[1..], key)
  }

  /** With distinct keys, looking up a member's own name finds that member's value. */
  lemma {:induction false} FieldOfMember(fields: seq<(string, Json)>, i: nat)
    requires DistinctKeys(fields) && i < |fields|
    ensures Field(fields, fields[i].0) == Some(fields[i].1)
    decreases i
  {
    if i > 0 {
      assert DistinctKeys(fields[1..]) by {
        forall a, b | 0 <= a < b < |fields[1..]| ensures fields[1..][a].0 != fields[1..][b].0 {
          assert fields[1..][a] == fields[a + 1] && fields[1..][b] == fields[b + 1];
        }
      }
      assert fields[1..][i - 1] == fields[i];
      FieldOfMember(fields[1..], i - 1);
    }
  }

  /**
   * `value[key]` for an own enumerable property: a canonical index of an
   * array, a member of an object. The result is always part of `j`.
   */
  function Member(j: Json, key: string): (r: Option<Json>)
    ensures r.Some? ==> r.value < j
    ensures j.Obj? ==> r == Field(j.fields, key)
  {
    match j
    case Obj(fs) => Field(fs, key)
    case Arr(xs) =>
      (match CanonicalIndex(key)
       case Some(i) => if i < |xs| then Some(xs[i]) else None
       case None => None)
    case _ => None
  }

  /** `Object.keys(value)` of an array or an object: the indices, or the member names. */
  function OwnKeys(j: Json): (ks: seq<string>)
    ensures j.Obj? ==> ks == Keys(j.fields)
    ensures j.Arr? ==> |ks| == |j.items|
  {
    match j
    case Obj(fs) => Keys(fs)
    case Arr(xs) => seq(|xs|, i requires 0 <= i < |xs| => NatToString(i))
    case _ => []
  }

  /** Every key `Object.keys` lists names a property of the value. */
  lemma OwnKeysAreMembers(j: Json, i: nat)
    requires (j.Arr? || j.Obj?) && i < |OwnKeys(j)|
    ensures Member(j, OwnKeys(j)[i]).Some?
  {
    if j.Arr? {
      CanonicalIndexOfNatToString(i);
    } else {
      assert j.fields[i].0 == OwnKeys(j)[i];
    }
  }

  /** `typeof`, with undefined for a missing value. */
  function TypeOf(v: Option<Json>): string {
    match v
    case None => "undefined"
    case Some(Bool(_)) => "boolean"
    case Some(Num(_)) => "number"
    case Some(Str(_)) => "string"
    case Some(_) => "object"
  }

  /** `v == null`: undefined or null. */
  predicate IsNullish(v: Option<Json>) {
    v.None? || v.value.Null?
  }

  /** JavaScript truthiness: undefined, null, false, 0 and "" are falsy. */
  predicate Truthy(v: Option<Json>) {
    match v
    case None => false
    case Some(Null) => false
    case Some(Bool(b)) => b
    case Some(Num(n)) => n != 0
    case Some(Str(s)) => s != ""
    case Some(_) => true
  }

  /**
   * `a === b`. Primitives compare by value. Arrays and objects compare by
   * reference; every array or object the engines meet comes from its own
   * `JSON.parse` or literal, so two of them are never the same reference.
   */
  predicate StrictEquals(a: Option<Json>, b: Option<Json>) {
    match (a, b)
    case (None, None) => true
    case (Some(Null), Some(Null)) => true
    case (Some(Bool(x)), Some(Bool(y))) => x == y
    case (Some(Num(x)), Some(Num(y))) => x == y
    case (Some(Str(x)), Some(Str(y))) => x == y
    case _ => false
  }

  /** `String(value)` */
  function ToJsString(j: Json): string {
    match j
    case Null => "null"
    case Bool(b) => if b then "true" else "false"
    case Num(n) => IntToString(n)
    case Str(s) => s
    case Arr(xs) =>
      if xs == [] then ""
      else Join(seq(|xs|, i requires 0 <= i < |xs| => if xs[i].Null? then "" else ToJsString(xs[i])), ',')
    case Obj(_) => "[object Object]"
  }
}
