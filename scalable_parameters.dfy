/**
 * `resolveScalableParameter`: turn a layout directive (a constant, a scale
 * function applied to a field of the element, or a list of fallbacks) into a
 * single value for one data element.
 */
module ScalableParameters {
  import opened Values

  /**
   * `LocusZoom.ScaleFunctions.get(name, parameters, value)`, which is defined
   * outside the data layer: the model takes it as a parameter, which may
   * throw (an unknown name, say).
   */
  type ScaleFunction = (Value, Value, Value) -> Result<Value>

  /** `data[layout.field]`; a key that is not a string reads as undefined. */
  function FieldOf(data: Record, field: Value): Value
  {
    if field.Str? then Property(data, field.s) else Undefined
  }

  /** The object case: apply the scale function when `scale_function` and `field` are both truthy. */
  function ResolveObject(fields: map<string, Value>, data: Record, scale: ScaleFunction): (r: Result<Value>)
    ensures !Truthy(Property(fields, "scale_function")) || !Truthy(Property(fields, "field")) ==> r == Ok(Null)
    ensures r.Err? ==> Truthy(Property(fields, "scale_function")) && Truthy(Property(fields, "field"))
    ensures Truthy(Property(fields, "scale_function")) && Truthy(Property(fields, "field")) ==>
              r == scale(Property(fields, "scale_function"),
                         if Truthy(Property(fields, "parameters")) then Property(fields, "parameters") else Obj(map[]),
                         FieldOf(data, Property(fields, "field")))
  {
    var name := Property(fields, "scale_function");
    var field := Property(fields, "field");
    if Truthy(name) && Truthy(field) then
      var parameters := Property(fields, "parameters");
      scale(name, if Truthy(parameters) then parameters else Obj(map[]), FieldOf(data, field))
    else Ok(Null)
  }

  /**
   * The reference meaning of a directive. An array means its first entry whose
   * value is not null or undefined; when there is none, the value of its last
   * entry (null or undefined), and null when it is empty. An exception in an
   * entry that is reached ends the whole resolution. `null` is an "object" to
   * `typeof`, so reading `null.scale_function` throws.
   */
  function Resolve(layout: Value, data: Record, scale: ScaleFunction): Result<Value>
    decreases layout, 1, 0
  {
    match layout
    case Arr(items) => ResolveFrom(layout, 0, data, scale)
    case Num(_) => Ok(layout)
    case Str(_) => Ok(layout)
    case Null => Err(TypeError)
    case Obj(fields) => ResolveObject(fields, data, scale)
    case Undefined => Ok(Null)
    case Bool(_) => Ok(Null)
  }

  /** The meaning of the entries of the array `layout` from position i on. */
  function ResolveFrom(layout: Value, i: nat, data: Record, scale: ScaleFunction): Result<Value>
    requires layout.Arr? && i <= |layout.items|
    decreases layout, 0, |layout.items| - i
  {
    if i == |layout.items| then Ok(Null)
    else
      assert layout.items[i] in layout.items;
      match Resolve(layout.items[i], data, scale)
      case Err(e) => Err(e)
      case Ok(v) =>
        if !IsNullish(v) || i == |layout.items| - 1 then Ok(v)
        else ResolveFrom(layout, i + 1, data, scale)
  }

  /** Entry k is where the scan of `items` stops: every earlier entry gave null or undefined, and k threw, gave something else, or is the last. */
  predicate StopsAt(items: seq<Value>, k: nat, data: Record, scale: ScaleFunction)
    requires k < |items|
  {
    && (forall j :: 0 <= j < k ==> Resolve(items[j], data, scale).Ok? && IsNullish(Resolve(items[j], data, scale).value))
    && (Resolve(items[k], data, scale).Ok? && IsNullish(Resolve(items[k], data, scale).value) ==> k == |items| - 1)
  }

  /**
   * A number or a string is its own value; undefined, booleans and incomplete
   * objects give null; a complete object is the scale function applied to its
   * parameters (or `{}`) and the element's field.
   */
  lemma ResolveConstants(layout: Value, data: Record, scale: ScaleFunction)
    ensures layout.Num? || layout.Str? ==> Resolve(layout, data, scale) == Ok(layout)
    ensures layout.Undefined? || layout.Bool? ==> Resolve(layout, data, scale) == Ok(Null)
    ensures layout.Obj? && !(Truthy(Property(layout.fields, "scale_function")) && Truthy(Property(layout.fields, "field")))
            ==> Resolve(layout, data, scale) == Ok(Null)
    ensures layout.Obj? && Truthy(Property(layout.fields, "scale_function")) && Truthy(Property(layout.fields, "field"))
            ==> Resolve(layout, data, scale) ==
                scale(Property(layout.fields, "scale_function"),
                      if Truthy(Property(layout.fields, "parameters")) then Property(layout.fields, "parameters") else Obj(map[]),
                      FieldOf(data, Property(layout.fields, "field")))
    ensures layout.Null? ==> Resolve(layout, data, scale) == Err(TypeError)
    ensures layout == Arr([]) ==> Resolve(layout, data, scale) == Ok(Null)
  {
  }

  /** Where the scan stops, its entry's outcome is the array's outcome. */
  lemma {:induction false} ResolveArrayStopsAt(items: seq<Value>, k: nat, data: Record, scale: ScaleFunction)
    requires k < |items| && StopsAt(items, k, data, scale)
    ensures Resolve(Arr(items), data, scale) == Resolve(items[k], data, scale)
  {
    ResolveFromStopsAt(Arr(items), 0, k, data, scale);
  }

  lemma {:induction false} ResolveFromStopsAt(layout: Value, i: nat, k: nat, data: Record, scale: ScaleFunction)
    requires layout.Arr? && i <= k < |layout.items| && StopsAt(layout.items, k, data, scale)
    ensures ResolveFrom(layout, i, data, scale) == Resolve(layout.items[k], data, scale)
    decreases k - i
  {
    if i < k {
      ResolveFromStopsAt(layout, i + 1, k, data, scale);
    }
  }

  /** Every non-empty array has a stopping entry, so the lemma above characterises every array. */
  lemma {:induction false} ScanStops(items: seq<Value>, data: Record, scale: ScaleFunction)
    requires items != []
    ensures exists k :: 0 <= k < |items| && StopsAt(items, k, data, scale)
  {
    var k := 0;
    while k < |items| - 1 && Resolve(items[k], data, scale).Ok? && IsNullish(Resolve(items[k], data, scale).value)
      invariant 0 <= k < |items|
      invariant forall j :: 0 <= j < k ==> Resolve(items[j], data, scale).Ok? && IsNullish(Resolve(items[j], data, scale).value)
    {
      k := k + 1;
    }
    assert StopsAt(items, k, data, scale);
  }

  /** `resolveScalableParameter`: the loop over the fallbacks, recursing into each. */
  method ResolveScalableParameter(layout: Value, data: Record, scale: ScaleFunction) returns (r: Result<Value>)
    ensures r == Resolve(layout, data, scale)
    decreases layout
  {
    var ret := Null;
    if layout.Arr? {
      var idx := 0;
      while IsNullish(ret) && idx < |layout.items|
        invariant 0 <= idx <= |layout.items|
        invariant idx == 0 ==> ret == Null
        invariant idx > 0 ==>
          Resolve(layout, data, scale) ==
          (if IsNullish(ret) && idx < |layout.items| then ResolveFrom(layout, idx, data, scale) else Ok(ret))
      {
        assert layout.items[idx] in layout.items;
        var sub := ResolveScalableParameter(layout.items[idx], data, scale);
        if sub.Err? {
          return sub;
        }
        ret := sub.value;
        idx := idx + 1;
      }
    } else {
      match layout
      case Num(_) =>
        ret := layout;
      case Str(_) =>
        ret := layout;
      case Null =>
        return Err(TypeError);
      case Obj(fields) =>
        var res := ResolveObject(fields, data, scale);
        if res.Err? {
          return res;
        }
        ret := res.value;
      case _ =>
    }
    return Ok(ret);
  }
}
