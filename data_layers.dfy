/**
 * The interactive state of one data layer: the highlighted and selected id
 * lists in the plot's shared state, the registry of open tooltips, and the
 * handlers that change them. Drawing (SVG classes, tooltip HTML, positions)
 * has no effect in this model.
 */
module DataLayers {
  import opened Values
  import opened Layouts
  import opened Ids
  import opened StatusLists

  const Highlighted := "highlighted"
  const Selected := "selected"

  predicate IsStatusName(name: string)
  {
    name == Highlighted || name == Selected
  }

  function Other(name: string): string
  {
    if name == Highlighted then Selected else Highlighted
  }

  /** The `toggle` argument: omitted means on, anything else by its truthiness. */
  predicate IsOn(toggle: Value)
  {
    toggle.Undefined? || Truthy(toggle)
  }

  /** Toggling off the head of a suffix of the copy leaves the next suffix: one step of the "off" loop. */
  lemma ToggleOffHead(copy: seq<string>, i: nat)
    requires i < |copy|
    ensures Toggled(copy[i..], copy[i], IsOn(Bool(false))) == copy[i + 1..]
  {
    RemoveFirstOfHead(copy[i..]);
    assert copy[i..][1..] == copy[i + 1..];
  }

  /** A tooltip record; its DOM selector and arrow are not modelled. */
  datatype Tooltip = Tooltip(data: Record, closed: bool)

  // ---------------------------------------------------------------------
  // Reference definitions on values

  /**
   * `toggleAllElementStatus(status, true)` on the list s, given the ids
   * `getElementId` yields for the data in order, and whether the tooltip logic
   * run after each toggle throws.
   */
  function ToggleAllOn(s: seq<string>, ids: seq<Result<string>>, throwsAfter: bool): (r: (seq<string>, Outcome))
    ensures |s| <= |r.0| && r.0[..|s|] == s
    ensures r.1.Fail? ==> exists k :: 0 <= k < |ids| && (ids[k].Err? || throwsAfter)
    decreases |ids|
  {
    if ids == [] then (s, Pass)
    else match ids[0]
      case Err(e) => (s, Fail(e))
      case Ok(id) =>
        if id in s then ToggleAllOn(s, ids[1..], throwsAfter)
        else if throwsAfter then (Added(s, id), Fail(TypeError))
        else
          var r := ToggleAllOn(Added(s, id), ids[1..], throwsAfter);
          assert r.0[..|s|] == r.0[..|s| + 1][..|s|];
          r
  }

  /** Proof step for the forEach loop: ToggleAllOn unfolded once, on the ids from position i on. */
  lemma ToggleAllOnStep(s: seq<string>, ids: seq<Result<string>>, i: nat, throwsAfter: bool)
    requires i < |ids|
    ensures ToggleAllOn(s, ids[i..], throwsAfter) ==
            match ids[i]
            case Err(e) => (s, Fail(e))
            case Ok(id) =>
              if id in s then ToggleAllOn(s, ids[i + 1..], throwsAfter)
              else if throwsAfter then (Added(s, id), Fail(TypeError))
              else ToggleAllOn(Added(s, id), ids[i + 1..], throwsAfter)
  {
    assert ids[i..][0] == ids[i] && ids[i..][1..] == ids[i + 1..];
  }

  /** One forEach callback, as ApplyStatusToElement states it, advances ToggleAllOn by one id. */
  lemma ToggleAllOnElement(s: seq<string>, ids: seq<Result<string>>, i: nat, throwsAfter: bool, after: seq<string>, r: Outcome)
    requires i < |ids|
    requires ids[i].Err? ==> r == Fail(ids[i].error) && after == s
    requires ids[i].Ok? && ids[i].value in s ==> r == Pass && after == s
    requires ids[i].Ok? && ids[i].value !in s ==>
               after == Added(s, ids[i].value) && r == (if throwsAfter then Fail(TypeError) else Pass)
    ensures r.Fail? ==> ToggleAllOn(s, ids[i..], throwsAfter) == (after, r)
    ensures r.Pass? ==> ToggleAllOn(s, ids[i..], throwsAfter) == ToggleAllOn(after, ids[i + 1..], throwsAfter)
  {
    ToggleAllOnStep(s, ids, i, throwsAfter);
  }

  /** When it completes, every element's id is in the list and nothing else was added. */
  lemma {:induction false} ToggleAllOnCovers(s: seq<string>, ids: seq<Result<string>>, throwsAfter: bool)
    requires ToggleAllOn(s, ids, throwsAfter).1 == Pass
    ensures forall k :: 0 <= k < |ids| ==> ids[k].Ok? && ids[k].value in ToggleAllOn(s, ids, throwsAfter).0
    ensures forall x :: x in ToggleAllOn(s, ids, throwsAfter).0 ==> x in s || Ok(x) in ids
    decreases |ids|
  {
    if ids != [] {
      var id := ids[0].value;
      var s' := if id in s then s else Added(s, id);
      ToggleAllOnCovers(s', ids[1..], throwsAfter);
      var r := ToggleAllOn(s, ids, throwsAfter).0;
      assert r == ToggleAllOn(s', ids[1..], throwsAfter).0;
      assert forall k :: 1 <= k < |ids| ==> ids[k] == ids[1..][k - 1];
      assert id in s' && s'[..] == r[..|s'|];
      assert id in r by {
        var j :| 0 <= j < |s'| && s'[j] == id;
        assert r[j] == id;
      }
      forall x | x in r
        ensures x in s || Ok(x) in ids
      {
        if x !in s && x != id {
          assert Ok(x) in ids[1..];
        }
      }
    }
  }

  /** It completes when every id is well formed and the tooltip logic does not throw. */
  lemma {:induction false} ToggleAllOnPasses(s: seq<string>, ids: seq<Result<string>>)
    requires forall k :: 0 <= k < |ids| ==> ids[k].Ok?
    ensures ToggleAllOn(s, ids, false).1 == Pass
    decreases |ids|
  {
    if ids != [] {
      assert forall k :: 0 <= k < |ids| - 1 ==> ids[1..][k] == ids[k + 1];
      ToggleAllOnPasses(if ids[0].value in s then s else Added(s, ids[0].value), ids[1..]);
    }
  }

  /** Toggling all on never introduces a duplicate. */
  lemma {:induction false} ToggleAllOnNoDup(s: seq<string>, ids: seq<Result<string>>, throwsAfter: bool)
    requires NoDup(s)
    ensures NoDup(ToggleAllOn(s, ids, throwsAfter).0)
    decreases |ids|
  {
    if ids != [] && ids[0].Ok? {
      AddedNoDup(s, ids[0].value);
      ToggleAllOnNoDup(Added(s, ids[0].value), ids[1..], throwsAfter);
    }
  }

  /**
   * The `selected` list after a click on `id`; `closed` tells whether the
   * layer holds a closed tooltip for it.
   */
  function ClickSelection(sel: seq<string>, id: string, mode: Selectable, closed: bool): (r: seq<string>)
    ensures id !in sel ==> id in r
    ensures id in sel && !(mode == SelectMultiple && closed) ==> multiset(r) == multiset(sel) - multiset{id}
  {
    if IndexOf(sel, id) != -1 then
      if mode == SelectMultiple && closed then sel else RemoveFirst(sel, id)
    else if mode == SelectOne && |sel| > 0 then [id]
    else sel + [id]
  }

  /** Clicking an unselected element appends it; in "one" mode it becomes the only selection. */
  lemma ClickSelects(sel: seq<string>, id: string, mode: Selectable, closed: bool)
    requires id !in sel
    ensures mode == SelectOne ==> ClickSelection(sel, id, mode, closed) == [id]
    ensures mode != SelectOne ==> ClickSelection(sel, id, mode, closed) == sel + [id]
  {
  }

  /** Clicking a selected element deselects it, except a closed tooltip in "multiple" mode. */
  lemma ClickDeselects(sel: seq<string>, id: string, mode: Selectable, closed: bool)
    requires id in sel && NoDup(sel)
    ensures mode == SelectMultiple && closed ==> ClickSelection(sel, id, mode, closed) == sel
    ensures !(mode == SelectMultiple && closed) ==>
              id !in ClickSelection(sel, id, mode, closed) && ClickSelection(sel, id, mode, closed) == RemoveFirst(sel, id)
  {
    RemoveFirstNoDup(sel, id);
  }

  /** In "one" mode clicks keep at most one element selected. */
  lemma ClickOneKeepsSingle(sel: seq<string>, id: string, closed: bool)
    requires |sel| <= 1
    ensures |ClickSelection(sel, id, SelectOne, closed)| <= 1
  {
  }

  /** Clicks never introduce a duplicate selection. */
  lemma ClickNoDup(sel: seq<string>, id: string, mode: Selectable, closed: bool)
    requires NoDup(sel)
    ensures NoDup(ClickSelection(sel, id, mode, closed))
  {
    if id in sel {
      RemoveFirstNoDup(sel, id);
    } else {
      assert Added(sel, id) == sel + [id];
      AddedNoDup(sel, id);
    }
  }

  /** The two invariants a click keeps, packaged for the click handler. */
  lemma ClickInvariants(sel: seq<string>, id: string, mode: Selectable, closed: bool)
    ensures NoDup(sel) ==> NoDup(ClickSelection(sel, id, mode, closed))
    ensures mode == SelectOne && |sel| <= 1 ==> |ClickSelection(sel, id, mode, closed)| <= 1
  {
    if NoDup(sel) {
      ClickNoDup(sel, id, mode, closed);
    }
    if mode == SelectOne && |sel| <= 1 {
      ClickOneKeepsSingle(sel, id, closed);
    }
  }

  /** Outside "one" mode, a second click on a newly selected element undoes the first. */
  lemma ClickTwiceRestores(sel: seq<string>, id: string, mode: Selectable)
    requires id !in sel && mode != SelectOne
    ensures ClickSelection(ClickSelection(sel, id, mode, false), id, mode, false) == sel
  {
    assert Added(sel, id) == sel + [id];
    AddRemoveRoundTrip(sel, id);
  }

  /**
   * `createTooltip(d, id)` on the registry m: the new registry and whether it
   * threw. `hasParent` says whether the layer has a parent panel (building
   * the record reads it).
   */
  function Created(m: map<string, Tooltip>, tip: TooltipSetting, hasParent: bool, d: Record, id: Value): (r: (map<string, Tooltip>, Outcome))
    ensures !tip.IsObjectType() ==> r == (m, Fail(NoTooltipLayout))
    ensures tip.IsObjectType() && !id.Str? ==> r == (m, Fail(IdNotString))
    ensures forall k :: k in m ==> k in r.0 && r.0[k] == m[k]
    ensures forall k :: k in r.0 && k !in m ==> id == Str(k) && r.0[k] == Tooltip(d, false)
    ensures r.1.Pass? ==> id.Str? && id.s in r.0
    ensures r.1.Pass? <==> tip.IsObjectType() && id.Str? && (id.s in m || (hasParent && tip.TooltipObject?))
    ensures tip.IsObjectType() && id.Str? && id.s !in m && hasParent ==> r.0 == m[id.s := Tooltip(d, false)]
  {
    if !tip.IsObjectType() then (m, Fail(NoTooltipLayout))
    else if !id.Str? then (m, Fail(IdNotString))
    else if id.s in m then (m, Pass)
    else if !hasParent then (m, Fail(TypeError))
    else (m[id.s := Tooltip(d, false)], if tip.TooltipNull? then Fail(TypeError) else Pass)
  }

  /** The registry holds a closed tooltip for id. */
  predicate IsClosed(m: map<string, Tooltip>, id: string)
  {
    id in m && m[id].closed
  }

  /** `destroyTooltip(id)` on the registry m. */
  function Destroyed(m: map<string, Tooltip>, id: Value): (r: (map<string, Tooltip>, Outcome))
    ensures r.1.Pass? <==> id.Str?
    ensures !id.Str? ==> r == (m, Fail(IdNotString))
    ensures id.Str? ==> id.s !in r.0 && forall k :: k in m && k != id.s ==> k in r.0 && r.0[k] == m[k]
    ensures r.0.Keys <= m.Keys
  {
    if !id.Str? then (m, Fail(IdNotString)) else (m - {id.s}, Pass)
  }

  /** Creating a tooltip twice is creating it once. */
  lemma CreateIdempotent(m: map<string, Tooltip>, tip: TooltipSetting, hasParent: bool, d: Record, d': Record, id: Value)
    ensures Created(Created(m, tip, hasParent, d, id).0, tip, hasParent, d', id).0 == Created(m, tip, hasParent, d, id).0
  {
  }

  /** Destroying a tooltip that was just created for a new id gives back the registry. */
  lemma CreateDestroyRoundTrip(m: map<string, Tooltip>, tip: TooltipSetting, hasParent: bool, d: Record, id: string)
    requires id !in m
    ensures Destroyed(Created(m, tip, hasParent, d, Str(id)).0, Str(id)).0 == m
  {
    var c := Created(m, tip, hasParent, d, Str(id)).0;
    assert c == m || c == m[id := Tooltip(d, false)];
  }

  // ---------------------------------------------------------------------
  // The shared state and the layer

  /** `state[state_id]`: a layer's entry in the plot's shared state; a missing list is None. */
  class LayerStatus {
    var highlighted: Option<seq<string>>
    var selected: Option<seq<string>>

    constructor ()
      ensures highlighted.None? && selected.None?
    {
      highlighted := None;
      selected := None;
    }
  }

  /** The plot's shared state object: the region shown and one entry per layer. */
  class PlotState {
    var start: Option<real>
    var end: Option<real>
    var layers: map<string, LayerStatus>

    constructor ()
      ensures start.None? && end.None? && layers == map[]
    {
      start := None;
      end := None;
      layers := map[];
    }
  }

  /** The parent panel as the layer sees it: its id, its plot's id and the shared state. */
  datatype Panel = Panel(id: string, plotId: string, state: PlotState)

  class DataLayer {
    const id: string
    const layout: Layout
    const parent: Option<Panel>
    const state: PlotState
    const stateId: Option<string>
    // the entry state[state_id]; null for a layer without a parent
    const status: LayerStatus?
    var data: seq<Record>
    var tooltips: map<string, Tooltip>
    var initialized: bool

    /**
     * The constructor's state setup: a layer with a parent shares the parent's
     * state, reuses or creates its entry there, and gives it an empty list for
     * each status its layout enables unless the entry already has one.
     */
    constructor (id: string, layout: Layout, parent: Option<Panel>)
      modifies if parent.Some? then {parent.value.state} else {}
      modifies if parent.Some? && parent.value.id + "." + id in parent.value.state.layers
               then {parent.value.state.layers[parent.value.id + "." + id]} else {}
      ensures this.id == id && this.layout == layout && this.parent == parent
      ensures data == [] && tooltips == map[] && !initialized
      ensures parent.None? ==> fresh(state) && state.layers == map[] && state.start.None? && state.end.None?
                               && stateId.None? && status == null
      ensures parent.Some? ==>
                var key := parent.value.id + "." + id;
                var before := old(parent.value.state.layers);
                && state == parent.value.state && stateId == Some(key) && status != null
                && state.layers == before[key := status]
                && parent.value.state.start == old(parent.value.state.start) && parent.value.state.end == old(parent.value.state.end)
                && (key in before ==> status == before[key])
                && (key !in before ==> fresh(status))
                && var h := if key in before then old(before[key].highlighted) else None;
                   var s := if key in before then old(before[key].selected) else None;
                   && status.highlighted == (if layout.highlightable && h.None? then Some([]) else h)
                   && status.selected == (if layout.selectable != NotSelectable && s.None? then Some([]) else s)
    {
      this.id := id;
      this.layout := layout;
      this.parent := parent;
      data := [];
      tooltips := map[];
      initialized := false;
      var st: PlotState;
      var rec: LayerStatus?;
      if parent.Some? {
        var key := parent.value.id + "." + id;
        st := parent.value.state;
        stateId := Some(key);
        if key in st.layers {
          rec := st.layers[key];
        } else {
          rec := new LayerStatus();
        }
      } else {
        st := new PlotState();
        stateId := None;
        rec := null;
      }
      state := st;
      status := rec;
      new;
      if rec != null {
        var key := stateId.value;
        st.layers := st.layers[key := rec];
        if layout.highlightable && rec.highlighted.None? {
          rec.highlighted := Some([]);
        }
        if layout.selectable != NotSelectable && rec.selected.None? {
          rec.selected := Some([]);
        }
      }
    }

    /** `state[state_id][name]`; None when the entry or the list is missing. */
    function List(name: string): Option<seq<string>>
      reads status
    {
      if status == null then None
      else if name == Highlighted then status.highlighted
      else status.selected
    }

    /**
     * Whether `showOrHideTooltip` throws: it reads `layout.tooltip.show`
     * (fatal on null) and both status lists whenever the tooltip is an object.
     * Its result is never used, so throwing is its only effect.
     */
    predicate ShowOrHideThrows()
      reads status
    {
      layout.tooltip.TooltipNull?
      || (layout.tooltip.TooltipObject? && (List(Highlighted).None? || List(Selected).None?))
    }

    /** `getElementId(element)`; the base id reads the parent and its plot. */
    function ElementIdOf(element: Record): (r: Result<string>)
      ensures r.Err? ==> r.error == TypeError
      ensures parent.None? ==> r.Err?
    {
      if parent.None? then Err(TypeError)
      else ElementId(BaseId(parent.value.plotId, parent.value.id, id), element, layout.idField)
    }

    /** The id the hover and click handlers compute for a datum. */
    function HoverIdOf(d: Record): (r: Result<string>)
      ensures r.Err? ==> r.error == TypeError
      ensures parent.None? ==> r.Err?
    {
      if parent.None? then Err(TypeError) else HoverId(parent.value.id, d, layout.idField)
    }

    /** `toggleElementStatus(name, id, toggle)` */
    method ToggleElementStatus(name: string, id: Value, toggle: Value) returns (o: Outcome)
      modifies status
      ensures !(IsStatusName(name) && id.Str?) ==>
                o == Pass && List(Highlighted) == old(List(Highlighted)) && List(Selected) == old(List(Selected))
      ensures IsStatusName(name) && id.Str? ==> List(Other(name)) == old(List(Other(name)))
      ensures IsStatusName(name) && id.Str? && old(List(name)).None? ==>
                o == Fail(TypeError) && List(name) == old(List(name))
      ensures IsStatusName(name) && id.Str? && old(List(name)).Some? ==>
                && List(name) == Some(Toggled(old(List(name)).value, id.s, IsOn(toggle)))
                && o == (if old(ShowOrHideThrows()) then Fail(TypeError) else Pass)
      ensures IsStatusName(name) && old(List(name)).Some? && NoDup(old(List(name)).value) ==> NoDup(List(name).value)
    {
      if !IsStatusName(name) || !id.Str? {
        return Pass;
      }
      var on := IsOn(toggle);
      var list := List(name);
      if list.None? {
        return Fail(TypeError);
      }
      if NoDup(list.value) {
        AddedNoDup(list.value, id.s);
        RemoveFirstNoDup(list.value, id.s);
      }
      var indexed := IndexOf(list.value, id.s);
      if on && indexed == -1 {
        SetList(name, list.value + [id.s]);
      }
      if !on && indexed != -1 {
        SetList(name, RemoveAt(list.value, indexed));
      }
      o := if ShowOrHideThrows() then Fail(TypeError) else Pass;
    }

    /** Replace one of the two lists of an existing entry. */
    method SetList(name: string, s: seq<string>)
      requires IsStatusName(name) && status != null
      modifies status
      ensures List(name) == Some(s) && List(Other(name)) == old(List(Other(name)))
      ensures ShowOrHideThrows() == old(ShowOrHideThrows()) || old(List(name)).None?
    {
      if name == Highlighted {
        status.highlighted := Some(s);
      } else {
        status.selected := Some(s);
      }
    }

    /** The ids `getElementId` yields for the data, in order. */
    function DataIds(): (ids: seq<Result<string>>)
      reads this
      ensures |ids| == |data| && forall i :: 0 <= i < |data| ==> ids[i] == ElementIdOf(data[i])
    {
      seq(|data|, i requires 0 <= i < |data| reads this => ElementIdOf(data[i]))
    }

    /** `toggleAllElementStatus(name, toggle)` */
    method ToggleAllElementStatus(name: string, toggle: Value) returns (o: Outcome)
      modifies status
      ensures !IsStatusName(name) ==>
                o == Pass && List(Highlighted) == old(List(Highlighted)) && List(Selected) == old(List(Selected))
      ensures IsStatusName(name) ==> List(Other(name)) == old(List(Other(name)))
      ensures IsStatusName(name) && IsOn(toggle) && old(List(name)).None? ==>
                List(name) == old(List(name)) && o == (if |data| == 0 then Pass else Fail(TypeError))
      ensures IsStatusName(name) && IsOn(toggle) && old(List(name)).Some? ==>
                var r := ToggleAllOn(old(List(name)).value, DataIds(), old(ShowOrHideThrows()));
                List(name) == Some(r.0) && o == r.1
      ensures IsStatusName(name) && !IsOn(toggle) && old(List(name)).None? ==>
                List(name) == old(List(name)) && o == Fail(TypeError)
      ensures IsStatusName(name) && !IsOn(toggle) && old(List(name)).Some? ==>
                var s := old(List(name)).value;
                if s != [] && old(ShowOrHideThrows())
                then List(name) == Some(s[1..]) && o == Fail(TypeError)
                else List(name) == Some([]) && o == Pass
      ensures IsStatusName(name) && old(List(name)).Some? && NoDup(old(List(name)).value) ==> NoDup(List(name).value)
    {
      if !IsStatusName(name) {
        return Pass;
      }
      if List(name).Some? && NoDup(List(name).value) {
        ToggleAllOnNoDup(List(name).value, DataIds(), ShowOrHideThrows());
        if List(name).value != [] {
          assert NoDup(List(name).value[1..]);
        }
      }
      if IsOn(toggle) {
        o := ApplyStatusToAll(name);
      } else {
        o := ClearStatusFromAll(name);
      }
    }

    /** The `true` branch of `toggleAllElementStatus`: a forEach over the data. */
    method ApplyStatusToAll(name: string) returns (o: Outcome)
      requires IsStatusName(name)
      modifies status
      ensures List(Other(name)) == old(List(Other(name)))
      ensures old(List(name)).None? ==> List(name) == old(List(name)) && o == (if |data| == 0 then Pass else Fail(TypeError))
      ensures old(List(name)).Some? ==>
                var r := ToggleAllOn(old(List(name)).value, DataIds(), old(ShowOrHideThrows()));
                List(name) == Some(r.0) && o == r.1
    {
      if List(name).None? {
        // every callback reads the missing list, so the first one throws
        if |data| == 0 {
          return Pass;
        }
        o := ApplyStatusToElement(name, data[0]);
        return;
      }
      ghost var throwsAfter := ShowOrHideThrows();
      ghost var ids := DataIds();
      ghost var s0 := List(name).value;
      var i := 0;
      while i < |data|
        invariant 0 <= i <= |data|
        invariant List(Other(name)) == old(List(Other(name)))
        invariant ShowOrHideThrows() == throwsAfter
        invariant List(name).Some?
        invariant ToggleAllOn(s0, ids, throwsAfter) == ToggleAllOn(List(name).value, ids[i..], throwsAfter)
      {
        ghost var before := List(name).value;
        var r := ApplyStatusToElement(name, data[i]);
        ToggleAllOnElement(before, ids, i, throwsAfter, List(name).value, r);
        if r.Fail? {
          return r;
        }
        i := i + 1;
      }
      assert ids[i..] == [];
      return Pass;
    }

    /** The forEach callback of the `true` branch, for one element. */
    method ApplyStatusToElement(name: string, element: Record) returns (o: Outcome)
      requires IsStatusName(name)
      modifies status
      ensures List(Other(name)) == old(List(Other(name)))
      ensures ShowOrHideThrows() == old(ShowOrHideThrows())
      ensures var eid := ElementIdOf(element);
              var before := old(List(name));
              if eid.Err? then o == Fail(eid.error) && List(name) == before
              else if before.None? then o == Fail(TypeError) && List(name) == before
              else if eid.value in before.value then o == Pass && List(name) == before
              else List(name) == Some(Added(before.value, eid.value))
                   && o == (if old(ShowOrHideThrows()) then Fail(TypeError) else Pass)
    {
      var eid := ElementIdOf(element);
      if eid.Err? {
        return Fail(eid.error);
      }
      var list := List(name);
      if list.None? {
        return Fail(TypeError);
      }
      o := Pass;
      if IndexOf(list.value, eid.value) == -1 {
        o := ToggleElementStatus(name, Str(eid.value), Bool(true));
      }
    }

    /** The `false` branch of `toggleAllElementStatus`: a forEach over a copy of the list. */
    method ClearStatusFromAll(name: string) returns (o: Outcome)
      requires IsStatusName(name)
      modifies status
      ensures List(Other(name)) == old(List(Other(name)))
      ensures old(List(name)).None? ==> List(name) == old(List(name)) && o == Fail(TypeError)
      ensures old(List(name)).Some? ==>
                var s := old(List(name)).value;
                if s != [] && old(ShowOrHideThrows())
                then List(name) == Some(s[1..]) && o == Fail(TypeError)
                else List(name) == Some([]) && o == Pass
    {
      ghost var throwsAfter := ShowOrHideThrows();
      var list := List(name);
      if list.None? {
        return Fail(TypeError);
      }
      var copy := list.value;
      var i := 0;
      while i < |copy|
        invariant 0 <= i <= |copy|
        invariant List(name) == Some(copy[i..])
        invariant List(Other(name)) == old(List(Other(name)))
        invariant i > 0 ==> !throwsAfter
        invariant ShowOrHideThrows() == throwsAfter
      {
        ToggleOffHead(copy, i);
        var r := ToggleElementStatus(name, Str(copy[i]), Bool(false));
        if r.Fail? {
          return r;
        }
        i := i + 1;
      }
      assert copy[i..] == [];
      return Pass;
    }

    /** `createTooltip(d, id)` */
    method CreateTooltip(d: Record, id: Value) returns (o: Outcome)
      modifies this`tooltips
      ensures (tooltips, o) == Created(old(tooltips), layout.tooltip, parent.Some?, d, id)
    {
      if !layout.tooltip.IsObjectType() {
        return Fail(NoTooltipLayout);
      }
      if !id.Str? {
        return Fail(IdNotString);
      }
      if id.s in tooltips {
        return Pass;
      }
      if parent.None? {
        return Fail(TypeError);
      }
      tooltips := tooltips[id.s := Tooltip(d, false)];
      // updateTooltip reads layout.tooltip.html
      o := if layout.tooltip.TooltipNull? then Fail(TypeError) else Pass;
    }

    /** `destroyTooltip(id)` */
    method DestroyTooltip(id: Value) returns (o: Outcome)
      modifies this`tooltips
      ensures (tooltips, o) == Destroyed(old(tooltips), id)
    {
      if !id.Str? {
        return Fail(IdNotString);
      }
      if id.s in tooltips {
        tooltips := tooltips - {id.s};
      } else {
        assert tooltips - {id.s} == tooltips;
      }
      return Pass;
    }

    /** `destroyAllTooltips()`: a for-in over the registry's keys. */
    method DestroyAllTooltips()
      modifies this`tooltips
      ensures tooltips == map[]
    {
      var keys := tooltips.Keys;
      while keys != {}
        invariant tooltips.Keys == keys
        decreases |keys|
      {
        var k :| k in keys;
        var _ := DestroyTooltip(Str(k));
        keys := keys - {k};
      }
    }

    /** The mouseover handler: open a tooltip for an element that is not selected. */
    method OnMouseOver(d: Record) returns (o: Outcome)
      modifies this`tooltips
      ensures var h := HoverIdOf(d);
              var sel := old(List(Selected));
              if h.Err? || sel.None? then o == Fail(TypeError) && tooltips == old(tooltips)
              else if h.value in sel.value || !layout.tooltip.IsTruthy() then o == Pass && tooltips == old(tooltips)
              else (tooltips, o) == Created(old(tooltips), layout.tooltip, parent.Some?, d, Str(h.value))
    {
      var h := HoverIdOf(d);
      if h.Err? {
        return Fail(h.error);
      }
      var sel := List(Selected);
      if sel.None? {
        return Fail(TypeError);
      }
      o := Pass;
      if IndexOf(sel.value, h.value) == -1 && layout.tooltip.IsTruthy() {
        o := CreateTooltip(d, Str(h.value));
      }
    }

    /** The mouseout handler: close the tooltip of an element that is not selected. */
    method OnMouseOut(d: Record) returns (o: Outcome)
      modifies this`tooltips
      ensures var h := HoverIdOf(d);
              var sel := old(List(Selected));
              if h.Err? || sel.None? then o == Fail(TypeError) && tooltips == old(tooltips)
              else if h.value in sel.value || !layout.tooltip.IsTruthy() then o == Pass && tooltips == old(tooltips)
              else o == Pass && tooltips == old(tooltips) - {h.value}
    {
      var h := HoverIdOf(d);
      if h.Err? {
        return Fail(h.error);
      }
      var sel := List(Selected);
      if sel.None? {
        return Fail(TypeError);
      }
      o := Pass;
      if IndexOf(sel.value, h.value) == -1 && layout.tooltip.IsTruthy() {
        o := DestroyTooltip(Str(h.value));
      }
    }

    /** The click handler, bound only when the layout is selectable. */
    method OnClick(d: Record) returns (o: Outcome)
      requires layout.selectable != NotSelectable
      modifies this`tooltips, status
      ensures List(Highlighted) == old(List(Highlighted))
      ensures HoverIdOf(d).Err? || old(List(Selected)).None? ==>
                o == Fail(TypeError) && tooltips == old(tooltips) && List(Selected) == old(List(Selected))
      ensures HoverIdOf(d).Ok? && old(List(Selected)).Some? ==>
                && o == Pass
                && List(Selected) == Some(ClickSelection(old(List(Selected)).value, HoverIdOf(d).value,
                                                         layout.selectable, IsClosed(old(tooltips), HoverIdOf(d).value)))
      ensures HoverIdOf(d).Ok? && old(List(Selected)).Some? ==>
                var sel := old(List(Selected)).value;
                var id := HoverIdOf(d).value;
                if id in sel && layout.selectable == SelectMultiple && IsClosed(old(tooltips), id)
                then tooltips.Keys == old(tooltips).Keys
                     && forall k :: k in old(tooltips) && k != id ==> tooltips[k] == old(tooltips)[k]
                else tooltips == if id !in sel && layout.selectable == SelectOne && |sel| > 0
                                 then old(tooltips) - {sel[0]} else old(tooltips)
      ensures old(List(Selected)).Some? && NoDup(old(List(Selected)).value) ==> NoDup(List(Selected).value)
      ensures layout.selectable == SelectOne && old(List(Selected)).Some? && |old(List(Selected)).value| <= 1
              ==> |List(Selected).value| <= 1
    {
      var h := HoverIdOf(d);
      if h.Err? {
        return Fail(h.error);
      }
      var sel := List(Selected);
      if sel.None? {
        return Fail(TypeError);
      }
      var id := h.value;
      ClickInvariants(sel.value, id, layout.selectable, IsClosed(tooltips, id));
      ClickElement(id);
      return Pass;
    }

    /** The click handler once the element's id is known and the selected list exists. */
    method ClickElement(id: string)
      requires List(Selected).Some?
      modifies this`tooltips, status
      ensures List(Highlighted) == old(List(Highlighted))
      ensures List(Selected) == Some(ClickSelection(old(List(Selected)).value, id, layout.selectable, IsClosed(old(tooltips), id)))
      ensures var sel := old(List(Selected)).value;
              if id in sel && layout.selectable == SelectMultiple && IsClosed(old(tooltips), id)
              then tooltips.Keys == old(tooltips).Keys
                   && forall k :: k in old(tooltips) && k != id ==> tooltips[k] == old(tooltips)[k]
              else tooltips == if id !in sel && layout.selectable == SelectOne && |sel| > 0
                               then old(tooltips) - {sel[0]} else old(tooltips)
    {
      var selectedIdx := IndexOf(List(Selected).value, id);
      if selectedIdx != -1 {
        ClickSelectedElement(id, selectedIdx);
      } else {
        ClickUnselectedElement(id);
      }
    }

    /** The click handler's branch for an element that is selected, at position idx. */
    method ClickSelectedElement(id: string, idx: int)
      requires List(Selected).Some? && 0 <= idx && IndexOf(List(Selected).value, id) == idx
      modifies this`tooltips, status
      ensures List(Highlighted) == old(List(Highlighted))
      ensures List(Selected) == Some(ClickSelection(old(List(Selected)).value, id, layout.selectable, IsClosed(old(tooltips), id)))
      ensures if layout.selectable == SelectMultiple && IsClosed(old(tooltips), id)
              then tooltips.Keys == old(tooltips).Keys
                   && forall k :: k in old(tooltips) && k != id ==> tooltips[k] == old(tooltips)[k]
              else tooltips == old(tooltips)
    {
      var sel := List(Selected).value;
      if layout.selectable == SelectMultiple && id in tooltips && tooltips[id].closed {
        // uncloseTooltip is defined elsewhere: it leaves the selection alone and
        // may change this tooltip's record in any way
        var reopened: Tooltip :| true;
        tooltips := tooltips[id := reopened];
      } else {
        SetList(Selected, RemoveAt(sel, idx));
      }
    }

    /** The click handler's branch for an element that is not selected. */
    method ClickUnselectedElement(id: string)
      requires List(Selected).Some? && id !in List(Selected).value
      modifies this`tooltips, status
      ensures List(Highlighted) == old(List(Highlighted))
      ensures List(Selected) == Some(ClickSelection(old(List(Selected)).value, id, layout.selectable, IsClosed(old(tooltips), id)))
      ensures var sel := old(List(Selected)).value;
              tooltips == if layout.selectable == SelectOne && |sel| > 0 then old(tooltips) - {sel[0]} else old(tooltips)
    {
      var current := List(Selected).value;
      assert IndexOf(current, id) == -1;
      ghost var expected := ClickSelection(current, id, layout.selectable, IsClosed(tooltips, id));
      if layout.selectable == SelectOne && |current| > 0 {
        var _ := DestroyTooltip(Str(current[0]));
        current := [];
      }
      assert expected == current + [id];
      SetList(Selected, current + [id]);
    }

    /**
     * `reMap()` with its fetch resolved to newData: the tooltips are cleared,
     * then the fetched rows become the data. Starting the fetch reads the
     * parent's plot, so a layer without a parent throws after the clearing.
     */
    method ReMap(newData: seq<Record>) returns (o: Outcome)
      modifies this
      ensures tooltips == map[]
      ensures parent.None? ==> o == Fail(TypeError) && data == old(data) && initialized == old(initialized)
      ensures parent.Some? ==> o == Pass && data == newData && initialized
    {
      DestroyAllTooltips();
      if parent.None? {
        return Fail(TypeError);
      }
      data := newData;
      initialized := true;
      return Pass;
    }
  }
}
