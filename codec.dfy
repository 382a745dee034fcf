/** JavaScript values as a parsed JSON body or a caller hands them over, and the
    primitive io-ts codecs (`string`, `literal`, `type`, `array`) that the wire
    schemas are built from. */
module Codec {

  datatype Option<+T> = None | Some(value: T)

  datatype Result<+T, +E> = Ok(value: T) | Err(error: E)

  /** A JavaScript value. `Undefined` is what reading a missing property gives.
      Numbers are kept as integers: no schema here reads a fractional number. */
  datatype Value =
    | Undefined
    | Null
    | Bool(b: bool)
    | Num(n: int)
    | Str(s: string)
    | Arr(items: seq<Value>)
    | Obj(fields: map<string, Value>)

  /** `u?.[key]`: an own property of an object, `undefined` for anything else. */
  function Get(u: Value, key: string): Value {
    if u.Obj? && key in u.fields then u.fields[key] else Undefined
  }

  /** `v === null || v === undefined`, the test behind `??`. */
  predicate IsNullish(v: Value) {
    v.Undefined? || v.Null?
  }

  /** `v ?? fallback` where the fallback is a string literal. */
  function Coalesce(v: Value, fallback: string): (r: Value)
    ensures IsNullish(v) ==> r == Str(fallback)
    ensures !IsNullish(v) ==> r == v
  {
    if IsNullish(v) then Str(fallback) else v
  }

  /** What a codec expected where validation failed. */
  datatype Kind = StringKind | RecordKind | ArrayKind | LiteralKind(literal: string)

  /** One validation error. `Expected` is io-ts's `failure(u, c)` without a
      message; `Rejected` is a refinement failing a string with a message. */
  datatype Issue =
    | Expected(kind: Kind, actual: Value)
    | Rejected(input: string, message: string)

  /** io-ts `Validation<T>`: the decoded value or a non-empty list of issues. */
  type Validation<T> = Result<T, seq<Issue>>

  /** The `is` guard of io-ts `string`: plain string-ness. */
  predicate IsString(u: Value) {
    u.Str?
  }

  /** io-ts `string.validate`. */
  function ValidateString(u: Value): (r: Validation<string>)
    ensures r.Ok? <==> u.Str?
    ensures r.Ok? ==> r.value == u.s
    ensures r.Err? ==> r.error == [Expected(StringKind, u)]
  {
    if u.Str? then Ok(u.s) else Err([Expected(StringKind, u)])
  }

  /** io-ts `literal(lit).validate`: strict equality with one string. */
  function ValidateLiteral(u: Value, lit: string): (r: Validation<string>)
    ensures r.Ok? <==> u == Str(lit)
    ensures r.Ok? ==> r.value == lit
  {
    if u == Str(lit) then Ok(lit) else Err([Expected(LiteralKind(lit), u)])
  }

  /** The issues of a validation: none for a success. */
  function IssuesOf<T>(r: Validation<T>): seq<Issue> {
    if r.Ok? then [] else r.error
  }
}
