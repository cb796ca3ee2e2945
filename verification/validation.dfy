/**
 * The part of zod's semantics the request schemas rely on. A request body is a
 * JSON object; each field of it is absent, null, a value of the expected JSON
 * type, or a value of some other type. A schema field is a small rule record,
 * and `...Ok` says whether zod's `parse` accepts the field under that rule.
 */
module Validation {
  import opened Common

  /** One field of a JSON body. `Mistyped` is a value of another JSON type;
      `truthy` records its JavaScript truthiness (0 and false are falsy). */
  datatype Field<T> = Absent | Null | Present(value: T) | Mistyped(truthy: bool)

  /** JavaScript truthiness of a text field (`!val` is its negation). */
  predicate Truthy(f: Field<string>) {
    match f
    case Absent => false
    case Null => false
    case Present(s) => s != ""
    case Mistyped(t) => t
  }

  /** `z.string()` followed by `.min(min)`, `.max(max)`, `.optional()`, `.nullable()`. */
  datatype StrRule = StrRule(min: nat, max: Option<nat>, optional: bool, nullable: bool)

  predicate StrOk(rule: StrRule, f: Field<string>) {
    match f
    case Absent => rule.optional
    case Null => rule.nullable
    case Present(s) => rule.min <= |s| && (rule.max.None? || |s| <= rule.max.value)
    case Mistyped(_) => false
  }

  /** The value a parsed text field hands on: the string, or None for null and undefined. */
  function StrValue(f: Field<string>): (r: Option<string>)
    ensures r.Some? <==> f.Present?
    ensures f.Present? ==> r.value == f.value
  {
    if f.Present? then Some(f.value) else None
  }

  /** A JavaScript number as `Number(v)` produces it: NaN or a finite value.
      The value is exact; binary floating point and the infinities are not modelled. */
  datatype Number = NaN | Finite(v: real)

  /** What `z.coerce.number()` hands to its checks: `Number(undefined)` is NaN,
      `Number(null)` is 0, a present field holds `Number(v)` of the value sent,
      and a mistyped field stands for a value whose coercion is NaN. */
  function Coerce(f: Field<Number>): Number {
    match f
    case Absent => NaN
    case Null => Finite(0.0)
    case Present(n) => n
    case Mistyped(_) => NaN
  }

  predicate IsInteger(x: real) {
    x.Floor as real == x
  }

  /** `z.coerce.number()` followed by `.min(m)` (or `.nonnegative()`), `.int()`,
      `.optional()`, `.nullable()`. The wrappers admit undefined and null before coercion. */
  datatype NumRule = NumRule(min: Option<real>, integer: bool, optional: bool, nullable: bool)

  predicate NumOk(rule: NumRule, f: Field<Number>) {
    if f.Absent? && rule.optional then true
    else if f.Null? && rule.nullable then true
    else
      var n := Coerce(f);
      && n.Finite?
      && (rule.min.None? || n.v >= rule.min.value)
      && (!rule.integer || IsInteger(n.v))
  }

  /** The value a parsed number field hands on: None when the wrappers let
      undefined or null through, the coerced value otherwise. */
  function NumValue(rule: NumRule, f: Field<Number>): (r: Option<real>)
    requires NumOk(rule, f)
    ensures r.None? <==> (f.Absent? && rule.optional) || (f.Null? && rule.nullable)
    ensures r.Some? ==> Coerce(f) == Finite(r.value)
  {
    if (f.Absent? && rule.optional) || (f.Null? && rule.nullable) then None
    else Some(Coerce(f).v)
  }

  /** `z.boolean()` with or without `.optional()`. */
  predicate BoolOk(optional: bool, f: Field<bool>) {
    f.Present? || (f.Absent? && optional)
  }
}
