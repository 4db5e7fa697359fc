/** The JavaScript values that reach the entity validators, JavaScript
    truthiness (the `!x` tests) and the Date normalisation
    `new Date(x).toISOString()`. */
module Js {
  import opened Errors

  datatype Option<+T> = None | Some(value: T)

  datatype Value =
    | Undefined
    | Null
    | Str(s: string)
    | Num(n: real)                    // a finite number
    | NaN
    | Bool(b: bool)
    | DateObj(valid: bool, time: int)  // a Date; `valid` is false for "Invalid Date"
    | Arr(elems: seq<Value>)
    | Obj(fields: map<string, Value>)

  /** A plain object; reading a property it lacks yields `undefined`. */
  type Payload = map<string, Value>

  function Get(p: Payload, key: string): (v: Value)
    ensures key in p ==> v == p[key]
    ensures v == Undefined <==> key !in p || p[key] == Undefined
  {
    if key in p then p[key] else Undefined
  }

  /** `!!v`: the empty string, 0, NaN, false, null and undefined are falsy;
      every object, including an empty array and an invalid Date, is truthy. */
  predicate Truthy(v: Value): (r: bool)
    ensures !r <==> v in {Undefined, Null, Str(""), Num(0.0), NaN, Bool(false)}
  {
    match v
    case Undefined => false
    case Null => false
    case Str(s) => s != ""
    case Num(n) => n != 0.0
    case NaN => false
    case Bool(b) => b
    case DateObj(_, _) => true
    case Arr(_) => true
    case Obj(_) => true
  }

  /** The runtime's date library: `Date.parse` on a string (None for an
      unparseable one) and `toISOString` on a valid time value. */
  datatype DateLib = DateLib(parse: string -> Option<int>, format: int -> string)

  /** `new Date(d).toISOString()` for a string or a Date. */
  function ToIsoString(d: Value, lib: DateLib): (r: Result<string>)
    requires d.Str? || d.DateObj?
    ensures d.DateObj? ==> r == if d.valid then Ok(lib.format(d.time)) else Err(InvalidTimeValue)
    ensures d.Str? ==> (r.Ok? <==> lib.parse(d.s).Some?)
    ensures r.Ok? && d.Str? ==> r.value == lib.format(lib.parse(d.s).value)
    ensures r.Err? ==> r.error == InvalidTimeValue
  {
    var time := if d.Str? then lib.parse(d.s) else if d.valid then Some(d.time) else None;
    if time.Some? then Ok(lib.format(time.value)) else Err(InvalidTimeValue)
  }
}
