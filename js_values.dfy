/**
 * The JavaScript values the modelled code inspects with `typeof`, `===`,
 * truthiness and property access.
 */
module JsValues {
  import opened Wrappers

  /** A JavaScript number: finite, NaN, or an infinity. */
  datatype JsNumber = Finite(value: real) | NaN | Infinity(negative: bool)

  /**
   * A JavaScript value. An object is the map of the properties that reading
   * `o.key` can see; functions are only distinguished as such.
   */
  datatype JsValue =
    | Undefined
    | Null
    | Bool(b: bool)
    | Num(n: JsNumber)
    | Str(s: string)
    | Arr(elems: seq<JsValue>)
    | Obj(props: map<string, JsValue>)
    | Func

  /** `typeof v === "object" && v !== null`: plain objects and arrays. */
  predicate IsNonNullObject(v: JsValue) {
    v.Obj? || v.Arr?
  }

  /** `v[key]` on a value known to be an object; anything else reads `undefined`. */
  function Get(v: JsValue, key: string): JsValue {
    if v.Obj? && key in v.props then v.props[key] else Undefined
  }

  /** `Boolean(v)`: `undefined`, `null`, `false`, `0`, `NaN` and `""` are falsy. */
  predicate Truthy(v: JsValue) {
    match v
    case Undefined => false
    case Null => false
    case Bool(b) => b
    case Num(n) => !(n.NaN? || (n.Finite? && n.value == 0.0))
    case Str(s) => s != []
    case _ => true
  }

  /**
   * `Number(raw)` for a string-or-undefined value. `Number(undefined)` is NaN;
   * the conversion of a string, which follows JavaScript's floating-point
   * number grammar, is the parameter `parse`.
   */
  function ToNumber(raw: Option<string>, parse: string -> JsNumber): JsNumber {
    match raw
    case None => NaN
    case Some(s) => parse(s)
  }

  /**
   * `m[key]` on a record of strings, such as `process.env` or the parsed
   * form body: `undefined` (None) when the key is absent.
   */
  function Lookup(env: map<string, string>, key: string): Option<string> {
    if key in env then Some(env[key]) else None
  }
}
