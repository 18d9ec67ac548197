/**
  The request values the DTOs see and the `class-validator` decorators they
  use, each as a predicate on one value. A property the request does not
  send is `Undefined`.
 */
module FormValidation {
  import opened Wrappers

  /** A JavaScript number: an integer, or anything else (a fraction, `NaN`,
      an infinity). */
  datatype JsNumber = IntegerNumber(n: int) | OtherNumber

  datatype Value =
    | Undefined
    | Null
    | Str(s: string)
    | Bool(b: bool)
    | Num(n: JsNumber)
    | Array(items: seq<Value>)
    | Object

  /** `@IsOptional()`: the remaining decorators are skipped for `null` and `undefined`. */
  predicate Skipped(v: Value) {
    v == Null || v == Undefined
  }

  /** `@IsNotEmpty()`: neither `''`, `null` nor `undefined`. */
  predicate IsNotEmpty(v: Value) {
    v != Str("") && v != Null && v != Undefined
  }

  /** `@MaxLength(max)`: a string of at most `max` characters. */
  predicate MaxLength(v: Value, max: nat) {
    v.Str? && |v.s| <= max
  }

  /** `@MinLength(min)`: a string of at least `min` characters. */
  predicate MinLength(v: Value, min: nat) {
    v.Str? && |v.s| >= min
  }

  predicate IsArray(v: Value) {
    v.Array?
  }

  /** `@MaxLength(max, { each: true })`: every element of an array, or the
      value itself when it is not one. */
  predicate EachMaxLength(v: Value, max: nat) {
    if v.Array? then forall k :: 0 <= k < |v.items| ==> MaxLength(v.items[k], max)
    else MaxLength(v, max)
  }

  /** `@IsInt()`. */
  predicate IsInt(v: Value) {
    v.Num? && v.n.IntegerNumber?
  }

  /** `@IsBoolean()`. */
  predicate IsBoolean(v: Value) {
    v.Bool?
  }

  /** `@Matches(pattern)`: a string the pattern accepts. */
  predicate Matches(v: Value, pattern: string -> bool) {
    v.Str? && pattern(v.s)
  }

  /** An optional string property as the service reads it: `null` and
      `undefined` are both absent. */
  function OptionalString(v: Value): (r: Option<string>)
    requires Skipped(v) || v.Str?
    ensures r.None? <==> Skipped(v)
    ensures r.Some? ==> r.value == v.s
  {
    if v.Str? then Some(v.s) else None
  }

  function OptionalInt(v: Value): (r: Option<int>)
    requires Skipped(v) || IsInt(v)
    ensures r.None? <==> Skipped(v)
    ensures r.Some? ==> v == Num(IntegerNumber(r.value))
  {
    if v.Num? then Some(v.n.n) else None
  }

  /** An optional integer property that is copied into a row as it is, where
      `null` and `undefined` differ. */
  function NullableInt(v: Value): (r: Field<int>)
    requires Skipped(v) || IsInt(v)
    ensures r.Omitted? <==> v == Undefined
    ensures r.ExplicitNull? <==> v == Null
    ensures r.Given? ==> v == Num(IntegerNumber(r.value))
  {
    match v
    case Num(n) => Given(n.n)
    case Null => ExplicitNull
    case _ => Omitted
  }

  function OptionalBool(v: Value): (r: Option<bool>)
    requires Skipped(v) || IsBoolean(v)
    ensures r.None? <==> Skipped(v)
    ensures r.Some? ==> v == Bool(r.value)
  {
    if v.Bool? then Some(v.b) else None
  }

  /** The strings of an array whose elements are all strings. */
  function Strings(items: seq<Value>): (r: seq<string>)
    requires forall k :: 0 <= k < |items| ==> items[k].Str?
    ensures |r| == |items| && forall k :: 0 <= k < |items| ==> items[k] == Str(r[k])
  {
    seq(|items|, k requires 0 <= k < |items| => items[k].s)
  }

  /** The values of a list of strings. */
  function StrValues(strings: seq<string>): (r: seq<Value>)
    ensures |r| == |strings| && forall k :: 0 <= k < |strings| ==> r[k] == Str(strings[k])
  {
    seq(|strings|, k requires 0 <= k < |strings| => Str(strings[k]))
  }

  /** The properties of `ps` whose check fails, in the order of `ps`. */
  function Failing<P(==,!new)>(ps: seq<P>, ok: P -> bool): (r: seq<P>)
    ensures forall p :: p in r <==> p in ps && !ok(p)
    ensures |r| <= |ps|
  {
    if ps == [] then []
    else
      assert ps == [ps[0]] + ps[1..];
      (if ok(ps[0]) then [] else [ps[0]]) + Failing(ps[1..], ok)
  }
}
