/** The parts of a data layer's (already merged) layout that the modelled code reads. */
module Layouts {
  import opened Values

  /** `layout.x_axis` or `layout.y_axis`. A None number is one for which `isNaN` holds. */
  datatype AxisLayout = AxisLayout(
    floor: Option<real>,
    ceiling: Option<real>,
    field: Option<string>,
    lowerBuffer: Option<real>,
    upperBuffer: Option<real>,
    // Some only when min_extent is an object whose entries 0 and 1 are both numbers
    minExtent: Option<(real, real)>)

  /** `layout.selectable`: falsy, "one", "multiple" or another truthy value. */
  datatype Selectable = NotSelectable | SelectOne | SelectMultiple | SelectOther

  /** `layout.tooltip`, classified by the tests the code applies to it. */
  datatype TooltipSetting =
    | NoTooltip       // falsy and not null, e.g. false (the default)
    | TooltipNull     // null: typeof says "object", yet it is falsy
    | TooltipObject   // an object or array
    | TooltipOther    // truthy but not an object, e.g. true
  {
    /** `typeof layout.tooltip == "object"` */
    predicate IsObjectType()
    {
      TooltipNull? || TooltipObject?
    }

    /** `if (layout.tooltip)` */
    predicate IsTruthy()
    {
      TooltipObject? || TooltipOther?
    }
  }

  datatype Layout = Layout(
    idField: string,
    highlightable: bool,  // truthiness of layout.highlightable
    selectable: Selectable,
    tooltip: TooltipSetting,
    xAxis: AxisLayout,
    yAxis: AxisLayout)
}
