/**
 * JavaScript values as the collection helpers see them: records are plain
 * objects (their own enumerable properties), and reading a property that is
 * not there yields `undefined`.
 */
module JsValues {

  /** A JavaScript value. `Undefined` is also what a missing property reads as. */
  datatype Value =
    | Undefined
    | Null
    | Bool(b: bool)
    | Num(n: real)
    | Str(s: string)
    | Obj(fields: map<string, Value>)
    | Arr(elems: seq<Value>)

  /** A plain object, by its own properties. */
  type Record = map<string, Value>

  /** The property read `item[key]`. */
  function Get(item: Record, key: string): Value
  {
    if key in item then item[key] else Undefined
  }

  /**
   * An argument as the helpers' `Array.isArray` / `typeof` guards classify it:
   * either of the expected kind, with its contents, or of some other kind.
   */
  datatype Arg<T> = Given(value: T) | WrongType
}
