/**
 * The JavaScript values an option can hold, JavaScript's loose `==` on them,
 * and the text form under which `localStorage` keeps them.
 */
module JsValues {
  import opened Collections

  /**
   * A JSON-like value. Numbers stand for JavaScript numbers without their
   * floating-point behaviour; arrays are not distinguished from other objects.
   */
  datatype Value =
    | Undefined
    | Null
    | Bool(b: bool)
    | Num(n: int)
    | Str(s: string)
    | Obj(fields: map<string, Value>)

  predicate Nullish(v: Value)
  {
    v.Undefined? || v.Null?
  }

  /**
   * `a == b`. Objects compare by reference, and the model has no object
   * identity: an object is never equal to anything. That is right whenever
   * the value compared is supplied fresh by a caller, freshly parsed or
   * freshly built, and `addOption` reads a cached object that is also a
   * registered default back as a parsed copy
   * (`OptionsAliasing.AddOptionReadsCopyOfShared`). It is wrong when a caller
   * passes back the very object the store holds: `setItem` of the cached
   * object, or `setSubItem` of a nested object read through `getSubItem`,
   * compares equal there and announces nothing
   * (`OptionsAliasing.ResaveOfMutatedObjectIsSilent`). `null == undefined`;
   * other primitives compare by value. The coercions between numbers,
   * strings and booleans are not modelled.
   */
  predicate LooseEquals(a: Value, b: Value)
  {
    if a.Obj? || b.Obj? then false
    else if Nullish(a) || Nullish(b) then Nullish(a) && Nullish(b)
    else a == b
  }

  /** `obj[key]` on a plain object: the property, or undefined. */
  function Field(fields: map<string, Value>, key: string): Value
  {
    if key in fields then fields[key] else Undefined
  }

  /**
   * What `localStorage.getItem` hands back: the JSON text of a value, or text
   * that is empty or not JSON. `JSON.stringify(undefined)` is not a string, and
   * storing it leaves the text "undefined", which `JSON.parse` rejects.
   */
  datatype StoredText = Json(v: Value) | Unparsable

  /** `JSON.stringify(v)` as stored by `localStorage.setItem`. */
  function Serialize(v: Value): StoredText
  {
    if v.Undefined? then Unparsable else Json(v)
  }

  /** `if (text) JSON.parse(text)`: None when the text is empty or does not parse. */
  function Parse(t: StoredText): Option<Value>
  {
    match t
    case Json(v) => if v.Undefined? then None else Some(v)
    case Unparsable => None
  }

  /** Storing then reading back gives the value, except for undefined, which is lost. */
  lemma ParseSerialize(v: Value)
    ensures Parse(Serialize(v)) == if v.Undefined? then None else Some(v)
  {
  }
}
