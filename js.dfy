/** Untyped JavaScript values, as a request body, a query string or a handler
    result reaches the framework before validation. Numbers are kept as integers:
    nothing in the core looks at a number's value beyond its type. */
module Js {

  datatype JsValue =
    | Undefined
    | Null
    | Bool(b: bool)
    | Number(n: int)
    | Str(s: string)
    | Array(items: seq<JsValue>)
    | Object(fields: map<string, JsValue>)

  /** `v === null || v === undefined`, the test behind `??` and `?.`. */
  predicate IsNullish(v: JsValue)
  {
    v.Undefined? || v.Null?
  }

  /** Reading a property of a parsed body: a missing key reads as `undefined`. */
  function Get(body: map<string, JsValue>, key: string): (v: JsValue)
    ensures key !in body ==> v == Undefined
    ensures key in body ==> v == body[key]
  {
    if key in body then body[key] else Undefined
  }
}

/** The class-validator decorators the DTOs use, each a predicate on one field.
    `IsEmail` delegates to the library's address check, which stays a parameter. */
module Validators {
  import opened Js
  import Domain

  /** `@IsOptional()`: a null or undefined value skips the field's other checks. */
  predicate Skipped(v: JsValue)
  {
    IsNullish(v)
  }

  /** `@IsString()`. */
  predicate IsString(v: JsValue)
  {
    v.Str?
  }

  /** `@MinLength(n)`: a string of at least `n` characters. */
  predicate MinLength(v: JsValue, n: nat)
  {
    v.Str? && |v.s| >= n
  }

  /** `@IsIn(values)` and `@IsEnum` over a list of strings: strict equality with one
      of them, so only a string can pass. */
  predicate IsIn(v: JsValue, values: seq<string>)
  {
    v.Str? && v.s in values
  }

  /** `@IsEmail()`: a string accepted by the library's address check. */
  predicate IsEmail(v: JsValue, isEmail: string -> bool)
  {
    v.Str? && isEmail(v.s)
  }

  /** `@IsOptional() @IsString()`: absent, null or a string. */
  predicate OptionalString(v: JsValue)
  {
    Skipped(v) || IsString(v)
  }

  /** The value an `@IsOptional() @IsString()` field carries on to the service, where
      `?? null` and `?? undefined` turn a missing value into no value. */
  function OptionalText(v: JsValue): (r: Domain.Option<string>)
    requires OptionalString(v)
    ensures r.Some? <==> v.Str?
    ensures r.Some? ==> r.value == v.s
  {
    if v.Str? then Domain.Some(v.s) else Domain.None
  }
}
