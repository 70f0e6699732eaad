/** JavaScript values as the parsers receive them from `JSON.parse`, and the
    few language operations on them that the parsers rely on. */
module JsValues {

  /** A value of one of the kinds `JSON.parse` produces, plus `undefined`,
      which is what reading an absent property yields. Numbers are integers
      in this model. An object is its map of own enumerable properties. */
  datatype Json =
    | Undefined
    | Null
    | Bool(b: bool)
    | Num(n: int)
    | Str(s: string)
    | Arr(items: seq<Json>)
    | Obj(fields: map<string, Json>)

  /** `!!v`: JavaScript truthiness. */
  predicate Truthy(v: Json)
  {
    match v
    case Undefined => false
    case Null => false
    case Bool(b) => b
    case Num(n) => n != 0
    case Str(s) => s != ""
    case Arr(_) => true
    case Obj(_) => true
  }

  /** `typeof v === 'object'`: holds of null, of arrays and of objects. */
  predicate IsObjectType(v: Json)
  {
    v.Null? || v.Arr? || v.Obj?
  }

  /** The guard `!data || typeof data !== 'object'` lets exactly these through:
      arrays and objects. */
  predicate PassesObjectCheck(v: Json)
  {
    Truthy(v) && IsObjectType(v)
  }

  /** The test `!x || typeof x !== 'string'` fails exactly on a non-empty string. */
  predicate NonEmptyStr(v: Json)
  {
    Truthy(v) && v.Str?
  }

  /** `v[key]` for a key that is not an array index, not `length` and not
      inherited: the own property's value, or `undefined`. */
  function Get(v: Json, key: string): (r: Json)
    ensures !r.Undefined? ==> v.Obj? && key in v.fields
  {
    if v.Obj? && key in v.fields then v.fields[key] else Undefined
  }

  /** `v.hasOwnProperty(key)` for such a key, on a value that is not null or
      undefined (a primitive is boxed first and owns no such key). */
  predicate HasOwn(v: Json, key: string)
  {
    v.Obj? && key in v.fields
  }

  datatype Option<T> = None | Some(value: T)

  /** A call that returns a value or throws an `Error` carrying a message. */
  datatype Result<T> = Ok(value: T) | Err(message: string)

  /** The `{ isValid, errors }` record every validator returns. */
  datatype ValidationResult = ValidationResult(isValid: bool, errors: seq<string>)

  /** The caller's reference to a value: a write through it (such as a
      property assignment on an object) is seen by everyone holding it. */
  class Handle {
    var value: Json

    constructor (v: Json)
      ensures value == v
    {
      value := v;
    }
  }
}
