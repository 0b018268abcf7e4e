/** JSON values as a JavaScript program sees them after `response.json()`, with the
    language's notion of truthiness and its `||` operator. */
module Js {
  import opened Wrappers

  /** A parsed JSON value. Numbers are integers: fractions are not modelled.
      `Undefined` is the value of a missing property. */
  datatype Value =
    | Undefined
    | Null
    | Bool(b: bool)
    | Num(n: int)
    | Str(s: string)
    | Arr(items: seq<Value>)
    | Obj(fields: map<string, Value>)

  /** JavaScript truthiness: `undefined`, `null`, `false`, `0` and `""` are falsy;
      every array and every object is truthy. */
  predicate Truthy(v: Value) {
    match v
    case Undefined => false
    case Null => false
    case Bool(b) => b
    case Num(n) => n != 0
    case Str(s) => s != ""
    case Arr(_) => true
    case Obj(_) => true
  }

  /** `a || b`: the left operand when it is truthy, else the right one. */
  function Or(a: Value, b: Value): (r: Value)
    ensures Truthy(r) <==> Truthy(a) || Truthy(b)
    ensures Truthy(a) ==> r == a
    ensures !Truthy(a) ==> r == b
  {
    if Truthy(a) then a else b
  }

  /** `a || b || ... || z`: the first truthy operand, or the last one when all are falsy. */
  function FirstTruthy(vs: seq<Value>): (r: Value)
    requires |vs| > 0
    ensures r in vs
    ensures Truthy(r) <==> exists i :: 0 <= i < |vs| && Truthy(vs[i])
  {
    if |vs| == 1 then vs[0] else Or(vs[0], FirstTruthy(vs[1..]))
  }

  /** The left-associated chain `((a || b) || c) ...` that the source writes is the
      same value as FirstTruthy, and that value is the operand found by scanning for
      the first truthy operand. */
  lemma {:induction false} FirstTruthyIsFirst(vs: seq<Value>, k: nat)
    requires k < |vs|
    requires forall i :: 0 <= i < k ==> !Truthy(vs[i])
    requires Truthy(vs[k]) || k == |vs| - 1
    ensures FirstTruthy(vs) == vs[k]
  {
    if k > 0 {
      FirstTruthyIsFirst(vs[1..], k - 1);
    }
  }

  /** `v.key` on a value whose kind is known to be an object or a primitive:
      `Some(field)` (possibly `Undefined`), or `None` when reading a property of
      `null` or `undefined` throws a TypeError. */
  function Member(v: Value, key: string): (r: Option<Value>)
    ensures r.None? <==> v.Null? || v.Undefined?
    ensures r.Some? && r.value != Undefined ==> v.Obj? && key in v.fields && v.fields[key] == r.value
  {
    match v
    case Undefined => None
    case Null => None
    case Obj(m) => if key in m then Some(m[key]) else Some(Undefined)
    case _ => Some(Undefined)
  }

  /** `v?.key`: optional chaining never throws; on `null` or `undefined` it gives `undefined`. */
  function OptionalMember(v: Value, key: string): (r: Value)
    ensures r != Undefined ==> v.Obj? && key in v.fields && v.fields[key] == r
    ensures v.Obj? && key in v.fields ==> r == v.fields[key]
  {
    match Member(v, key)
    case None => Undefined
    case Some(f) => f
  }
}
