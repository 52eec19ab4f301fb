/** The JavaScript values the data layer handles, and the ways its operations fail. */
module Values {

  datatype Option<T> = None | Some(value: T)

  /** The exceptions the data layer throws, or lets the runtime throw. */
  datatype Error =
    | TypeError          // a property read on undefined or null, or a method missing on a value
    | InvalidDimension   // getAxisExtent called with a dimension other than "x" or "y"
    | NoTooltipLayout    // createTooltip on a layer whose layout.tooltip is not an object
    | IdNotString        // createTooltip or destroyTooltip called with a non-string id

  datatype Result<T> = Ok(value: T) | Err(error: Error)

  datatype Outcome = Pass | Fail(error: Error)

  /** A JavaScript value as it appears in layouts and data records (functions are not modelled). */
  datatype Value =
    | Undefined
    | Null
    | Bool(b: bool)
    | Num(n: real)
    | Str(s: string)
    | Arr(items: seq<Value>)
    | Obj(fields: map<string, Value>)

  /** A data element: one row of the layer's data, a plain object. */
  type Record = map<string, Value>

  /** JavaScript truthiness (NaN is not a modelled number). */
  predicate Truthy(v: Value)
  {
    match v
    case Undefined => false
    case Null => false
    case Bool(b) => b
    case Num(n) => n != 0.0
    case Str(s) => s != ""
    case Arr(_) => true
    case Obj(_) => true
  }

  /** `v == null` with JavaScript's loose equality. */
  predicate IsNullish(v: Value)
  {
    v.Undefined? || v.Null?
  }

  /** Property read `o[key]` on a plain object: a missing key reads as undefined. */
  function Property(fields: map<string, Value>, key: string): Value
  {
    if key in fields then fields[key] else Undefined
  }

  /** Unary plus `+v`; None stands for NaN. */
  function ToNumber(v: Value): Option<real>
  {
    match v
    case Undefined => None
    case Null => Some(0.0)
    case Bool(b) => Some(if b then 1.0 else 0.0)
    case Num(n) => Some(n)
    case _ => None
  }
}
