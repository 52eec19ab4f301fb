/** `getAxisExtent`: the range an axis of the layer should span. */
module AxisExtents {
  import opened Values
  import opened Layouts

  /** An extent: `[]`, or a pair whose ends may be undefined (None). */
  datatype Extent = NoExtent | Range(lo: Option<real>, hi: Option<real>)

  function Min(a: real, b: real): real { if a <= b then a else b }
  function Max(a: real, b: real): real { if a <= b then b else a }

  predicate HasDefined(vs: seq<Option<real>>)
  {
    exists i :: 0 <= i < |vs| && vs[i].Some?
  }

  /**
   * `d3.extent(values)`: the least and the greatest value, ignoring NaN and
   * undefined (None); both ends are undefined when no value is defined.
   */
  function D3Extent(vs: seq<Option<real>>): (r: (Option<real>, Option<real>))
    ensures r.0.Some? <==> HasDefined(vs)
    ensures r.1.Some? <==> HasDefined(vs)
    ensures r.0.Some? ==> r.0 in vs && r.1 in vs && r.0.value <= r.1.value
    ensures r.0.Some? ==> forall i :: 0 <= i < |vs| && vs[i].Some? ==> r.0.value <= vs[i].value <= r.1.value
  {
    if vs == [] then (None, None)
    else
      var rest := D3Extent(vs[1..]);
      assert forall i :: 1 <= i < |vs| ==> vs[i] == vs[1..][i - 1];
      assert HasDefined(vs[1..]) ==> HasDefined(vs);
      match vs[0]
      case None =>
        assert HasDefined(vs) ==> HasDefined(vs[1..]) by {
          if HasDefined(vs) {
            var i :| 0 <= i < |vs| && vs[i].Some?;
            assert vs[1..][i - 1].Some?;
          }
        }
        rest
      case Some(v) =>
        if rest.0.None? then (Some(v), Some(v))
        else (Some(Min(v, rest.0.value)), Some(Max(v, rest.1.value)))
  }

  /** The axis layout for a valid dimension. */
  function AxisOf(dimension: string, layout: Layout): AxisLayout
  {
    if dimension == "x" then layout.xAxis else layout.yAxis
  }

  /** `layout[axis].field` is truthy. */
  predicate HasField(axis: AxisLayout)
  {
    axis.field.Some? && axis.field.value != ""
  }

  /** `+d[field]` for every element of the data. */
  function FieldValues(data: seq<Record>, field: string): seq<Option<real>>
  {
    seq(|data|, i requires 0 <= i < |data| => ToNumber(Property(data[i], field)))
  }

  /** The points the two buffers push: NaN (None) when the data extent is undefined. */
  function BufferPoints(ext: (Option<real>, Option<real>), axis: AxisLayout): seq<Option<real>>
  {
    var defined := ext.0.Some? && ext.1.Some?;
    var span := if defined then ext.1.value - ext.0.value else 0.0;
    (if axis.lowerBuffer.Some? then
       [if defined then Some(ext.0.value - span * axis.lowerBuffer.value) else None]
     else [])
    + (if axis.upperBuffer.Some? then
         [if defined then Some(ext.1.value + span * axis.upperBuffer.value) else None]
       else [])
  }

  /** The two points min_extent pushes, when it passes the code's test. */
  function MinExtentPoints(axis: AxisLayout): seq<Option<real>>
  {
    if axis.minExtent.Some? then [Some(axis.minExtent.value.0), Some(axis.minExtent.value.1)] else []
  }

  /** Everything the second `d3.extent` call sees. */
  function Candidates(data: seq<Record>, axis: AxisLayout): seq<Option<real>>
    requires HasField(axis)
  {
    var ext := D3Extent(FieldValues(data, axis.field.value));
    [ext.0, ext.1] + BufferPoints(ext, axis) + MinExtentPoints(axis)
  }

  /**
   * `getAxisExtent(dimension)` on a layer with this layout and data, whose
   * shared state has these `start` and `end`.
   */
  function AxisExtent(dimension: string, layout: Layout, data: seq<Record>, start: Option<real>, end: Option<real>): (r: Result<Extent>)
    ensures r.Err? <==> dimension != "x" && dimension != "y"
    ensures r.Err? ==> r.error == InvalidDimension
  {
    if dimension != "x" && dimension != "y" then Err(InvalidDimension)
    else
      var axis := AxisOf(dimension, layout);
      if axis.floor.Some? && axis.ceiling.Some? then Ok(Range(axis.floor, axis.ceiling))
      else if HasField(axis) && |data| > 0 then
        var widened := D3Extent(Candidates(data, axis));
        Ok(Range(if axis.floor.Some? then axis.floor else widened.0,
                 if axis.ceiling.Some? then axis.ceiling else widened.1))
      else if dimension == "x" && start.Some? && end.Some? then Ok(Range(start, end))
      else Ok(NoExtent)
  }

  /** A floor and a ceiling together decide the extent. */
  lemma FloorAndCeilingDecide(dimension: string, layout: Layout, data: seq<Record>, start: Option<real>, end: Option<real>)
    requires dimension == "x" || dimension == "y"
    requires AxisOf(dimension, layout).floor.Some? && AxisOf(dimension, layout).ceiling.Some?
    ensures AxisExtent(dimension, layout, data, start, end)
            == Ok(Range(AxisOf(dimension, layout).floor, AxisOf(dimension, layout).ceiling))
  {
  }

  /**
   * With a field and data that has at least one number in it, the extent is
   * defined at both ends. An end without an override is the extreme of the
   * data, the buffer points and min_extent: it covers all of them and is one
   * of them. A floor or a ceiling replaces its end.
   */
  lemma DataExtentCovers(dimension: string, layout: Layout, data: seq<Record>, start: Option<real>, end: Option<real>)
    requires dimension == "x" || dimension == "y"
    requires !(AxisOf(dimension, layout).floor.Some? && AxisOf(dimension, layout).ceiling.Some?)
    requires HasField(AxisOf(dimension, layout)) && |data| > 0
    requires exists i :: 0 <= i < |data| && ToNumber(Property(data[i], AxisOf(dimension, layout).field.value)).Some?
    ensures var axis := AxisOf(dimension, layout);
            var cs := Candidates(data, axis);
            var r := AxisExtent(dimension, layout, data, start, end);
            && r.Ok? && r.value.Range? && r.value.lo.Some? && r.value.hi.Some?
            && (axis.floor.Some? ==> r.value.lo == axis.floor)
            && (axis.ceiling.Some? ==> r.value.hi == axis.ceiling)
            && (axis.floor.None? ==> r.value.lo in cs && forall k :: 0 <= k < |cs| && cs[k].Some? ==> r.value.lo.value <= cs[k].value)
            && (axis.ceiling.None? ==> r.value.hi in cs && forall k :: 0 <= k < |cs| && cs[k].Some? ==> cs[k].value <= r.value.hi.value)
            && (axis.floor.None? ==> forall i :: 0 <= i < |data| && ToNumber(Property(data[i], axis.field.value)).Some?
                                       ==> r.value.lo.value <= ToNumber(Property(data[i], axis.field.value)).value)
            && (axis.ceiling.None? ==> forall i :: 0 <= i < |data| && ToNumber(Property(data[i], axis.field.value)).Some?
                                         ==> ToNumber(Property(data[i], axis.field.value)).value <= r.value.hi.value)
            && (axis.floor.None? && axis.minExtent.Some? ==>
                  r.value.lo.value <= axis.minExtent.value.0 && r.value.lo.value <= axis.minExtent.value.1)
            && (axis.ceiling.None? && axis.minExtent.Some? ==>
                  axis.minExtent.value.0 <= r.value.hi.value && axis.minExtent.value.1 <= r.value.hi.value)
  {
    var axis := AxisOf(dimension, layout);
    var vs := FieldValues(data, axis.field.value);
    var i :| 0 <= i < |data| && ToNumber(Property(data[i], axis.field.value)).Some?;
    assert vs[i].Some?;
    var ext := D3Extent(vs);
    var cs := Candidates(data, axis);
    assert cs[0] == ext.0 && ext.0.Some?;
    assert HasDefined(cs);
    var w := D3Extent(cs);
    if axis.minExtent.Some? {
      var n := |cs|;
      assert cs[n - 2] == Some(axis.minExtent.value.0) && cs[n - 1] == Some(axis.minExtent.value.1);
    }
    forall j | 0 <= j < |data| && ToNumber(Property(data[j], axis.field.value)).Some?
      ensures w.0.value <= ToNumber(Property(data[j], axis.field.value)).value <= w.1.value
    {
      assert vs[j].Some?;
      assert cs[1] == ext.1;
    }
  }

  /** Data whose field never holds a number spans only min_extent, if given, under the overrides. */
  lemma UndefinedDataExtent(dimension: string, layout: Layout, data: seq<Record>, start: Option<real>, end: Option<real>)
    requires dimension == "x" || dimension == "y"
    requires !(AxisOf(dimension, layout).floor.Some? && AxisOf(dimension, layout).ceiling.Some?)
    requires HasField(AxisOf(dimension, layout)) && |data| > 0
    requires forall i :: 0 <= i < |data| ==> ToNumber(Property(data[i], AxisOf(dimension, layout).field.value)).None?
    ensures var axis := AxisOf(dimension, layout);
            var me := axis.minExtent;
            AxisExtent(dimension, layout, data, start, end) ==
              Ok(Range(if axis.floor.Some? then axis.floor else if me.Some? then Some(Min(me.value.0, me.value.1)) else None,
                       if axis.ceiling.Some? then axis.ceiling else if me.Some? then Some(Max(me.value.0, me.value.1)) else None))
  {
    var axis := AxisOf(dimension, layout);
    var vs := FieldValues(data, axis.field.value);
    assert !HasDefined(vs) by {
      forall i | 0 <= i < |vs| ensures vs[i].None? {
        assert ToNumber(Property(data[i], axis.field.value)).None?;
      }
    }
    var cs := Candidates(data, axis);
    var ext := D3Extent(vs);
    assert ext == (None, None);
    var prefix := [None, None] + BufferPoints(ext, axis);
    assert forall k :: 0 <= k < |prefix| ==> prefix[k].None?;
    if axis.minExtent.Some? {
      var a := axis.minExtent.value.0;
      var b := axis.minExtent.value.1;
      assert cs == prefix + [Some(a), Some(b)];
      D3ExtentOfPair(prefix, a, b);
    } else {
      assert cs == prefix;
      assert !HasDefined(cs);
    }
  }

  /** Undefined values before a pair do not change the pair's extent. */
  lemma {:induction false} D3ExtentOfPair(prefix: seq<Option<real>>, a: real, b: real)
    requires forall k :: 0 <= k < |prefix| ==> prefix[k].None?
    ensures D3Extent(prefix + [Some(a), Some(b)]) == (Some(Min(a, b)), Some(Max(a, b)))
  {
    var vs := prefix + [Some(a), Some(b)];
    if prefix == [] {
      assert vs[1..] == [Some(b)];
      assert D3Extent([Some(b)]) == (Some(b), Some(b)) by {
        assert [Some(b)][1..] == [];
      }
    } else {
      assert vs[1..] == prefix[1..] + [Some(a), Some(b)];
      D3ExtentOfPair(prefix[1..], a, b);
    }
  }

  /** Without overrides or usable data, x falls back to the state's region, anything else to `[]`. */
  lemma StateFallback(dimension: string, layout: Layout, data: seq<Record>, start: Option<real>, end: Option<real>)
    requires dimension == "x" || dimension == "y"
    requires !(AxisOf(dimension, layout).floor.Some? && AxisOf(dimension, layout).ceiling.Some?)
    requires !(HasField(AxisOf(dimension, layout)) && |data| > 0)
    ensures AxisExtent(dimension, layout, data, start, end) ==
            Ok(if dimension == "x" && start.Some? && end.Some? then Range(start, end) else NoExtent)
  {
  }
}
