/** The two element-id schemes of the data layer, kept apart as the code keeps them. */
module Ids {
  import opened Values

  /** A character matched by the regular expression `\w`. */
  predicate IsWordChar(c: char)
  {
    ('a' <= c <= 'z') || ('A' <= c <= 'Z') || ('0' <= c <= '9') || c == '_'
  }

  predicate AllWord(s: string)
  {
    forall i :: 0 <= i < |s| ==> IsWordChar(s[i])
  }

  /** `s.replace(/\W/g, "")`: drop every non-word character. */
  function StripNonWord(s: string): (r: string)
    ensures AllWord(r)
    ensures |r| <= |s|
    ensures forall c :: multiset(r)[c] == if IsWordChar(c) then multiset(s)[c] else 0
  {
    if s == [] then []
    else
      var rest := StripNonWord(s[1..]);
      assert s == [s[0]] + s[1..];
      if IsWordChar(s[0]) then [s[0]] + rest else rest
  }

  /** Stripping keeps the order of what it keeps: it distributes over concatenation. */
  lemma {:induction false} StripNonWordAppend(a: string, b: string)
    ensures StripNonWord(a + b) == StripNonWord(a) + StripNonWord(b)
  {
    if a == [] {
      assert a + b == b;
    } else {
      assert (a + b)[0] == a[0] && (a + b)[1..] == a[1..] + b;
      StripNonWordAppend(a[1..], b);
    }
  }

  /** A string that is already all word characters is left as it is (so stripping is idempotent). */
  lemma {:induction false} StripNonWordKeepsWords(s: string)
    requires AllWord(s)
    ensures StripNonWord(s) == s
  {
    if s != [] {
      StripNonWordKeepsWords(s[1..]);
    }
  }

  /** `getBaseId`: plot id, panel id and layer id joined by dots. */
  function BaseId(plotId: string, panelId: string, layerId: string): string
  {
    plotId + "." + panelId + "." + layerId
  }

  /** The id `element[idField]` after stripping, or TypeError when it is not a string (it has no `replace`). */
  function StrippedId(element: Record, idField: string): (r: Result<string>)
    ensures r.Ok? <==> Property(element, idField).Str?
    ensures r.Err? ==> r.error == TypeError
    ensures r.Ok? ==> AllWord(r.value)
  {
    match Property(element, idField)
    case Str(raw) => Ok(StripNonWord(raw))
    case _ => Err(TypeError)
  }

  /** `getElementId`: the base id, a dot, then the stripped id. */
  function ElementId(baseId: string, element: Record, idField: string): (r: Result<string>)
    ensures r.Ok? <==> Property(element, idField).Str?
    ensures r.Err? ==> r.error == TypeError
    ensures r.Ok? ==> |r.value| > |baseId| && r.value[..|baseId| + 1] == baseId + "."
                      && AllWord(r.value[|baseId| + 1..])
    ensures r.Ok? ==> r.value[|baseId| + 1..] == StripNonWord(Property(element, idField).s)
  {
    match StrippedId(element, idField)
    case Ok(w) =>
      var id := baseId + "." + w;
      assert id[|baseId| + 1..] == w;
      Ok(id)
    case Err(e) => Err(e)
  }

  /** The id the hover and click handlers build: panel id, an underscore, then the stripped id. */
  function HoverId(panelId: string, element: Record, idField: string): (r: Result<string>)
    ensures r.Ok? <==> Property(element, idField).Str?
    ensures r.Err? ==> r.error == TypeError
    ensures r.Ok? ==> |r.value| > |panelId| && r.value[..|panelId| + 1] == panelId + "_"
                      && AllWord(r.value[|panelId| + 1..])
    ensures r.Ok? ==> r.value[|panelId| + 1..] == StripNonWord(Property(element, idField).s)
  {
    match StrippedId(element, idField)
    case Ok(w) =>
      var id := panelId + "_" + w;
      assert id[|panelId| + 1..] == w;
      Ok(id)
    case Err(e) => Err(e)
  }

  /** An element whose raw id is made of word characters gets that id verbatim after the separator. */
  lemma WordIdsAreVerbatim(baseId: string, panelId: string, element: Record, idField: string)
    requires Property(element, idField).Str? && AllWord(Property(element, idField).s)
    ensures ElementId(baseId, element, idField) == Ok(baseId + "." + Property(element, idField).s)
    ensures HoverId(panelId, element, idField) == Ok(panelId + "_" + Property(element, idField).s)
  {
    StripNonWordKeepsWords(Property(element, idField).s);
  }
}
