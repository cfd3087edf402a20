/** The JavaScript values that flow through the document-tree engine: record
    fields, the current selection and the widget defaults are all untyped JS
    values, and the engine's behaviour depends on JS truthiness, on `??` and
    on `+`. */
module JsValues {

  datatype Option<+T> = None | Some(value: T)

  /** A JS value as the engine sees it. Numbers are the integers the engine
      produces (order keys are 0, 100, 200, ...); `NaN` is what `undefined + 100`
      gives. */
  datatype Json =
    | Undefined
    | Null
    | Bool(b: bool)
    | Num(n: int)
    | NaN
    | Str(s: string)

  /** JS truthiness, as `while (x)` tests it. */
  predicate Truthy(x: Json)
  {
    match x
    case Undefined => false
    case Null => false
    case Bool(b) => b
    case Num(n) => n != 0
    case NaN => false
    case Str(s) => s != ""
  }

  /** `x ?? y`: only `null` and `undefined` are replaced; every other value,
      falsy or not, is kept. */
  function Coalesce(x: Json, y: Json): (r: Json)
    ensures r == y || r == x
    ensures r != x <==> (x == Undefined || x == Null) && y != x
  {
    if x == Undefined || x == Null then y else x
  }

  /** `x + 100` under JS's `+`: numbers add, `null` and booleans convert to
      numbers, strings concatenate, `undefined` and NaN give NaN. */
  function Plus100(x: Json): (r: Json)
    ensures x.Num? ==> r == Num(x.n + 100)
    ensures r.Num? <==> x.Num? || x == Null || x.Bool?
  {
    match x
    case Num(n) => Num(n + 100)
    case Null => Num(100)
    case Bool(b) => Num(if b then 101 else 100)
    case Str(s) => Str(s + "100")
    case Undefined => NaN
    case NaN => NaN
  }

  /** `??` is not `||`: the initial selection `''` is falsy yet is kept. */
  lemma NullishNotFalsy(y: Json)
    requires y != Str("")
    ensures !Truthy(Str("")) && Coalesce(Str(""), y) == Str("")
    ensures !Truthy(Bool(false)) && Coalesce(Bool(false), y) == Bool(false)
  {
  }
}
