/**
 * The application state of src/App.js: the element list, the selected
 * element, the load-on-mount rule and the effect that drops a selection
 * whose element is gone. `AppState` holds the two pieces of state and
 * applies the rules as the effects and setters do.
 */
module App {
  import opened Js
  import PropertiesPanel

  /** The load-on-mount rule: a saved layout replaces the elements only when it is an array. */
  function LoadedElements(elements: seq<Value>, savedLayout: Value): (r: seq<Value>)
    ensures savedLayout.Arr? ==> r == savedLayout.items
    ensures !savedLayout.Arr? ==> r == elements
  {
    if Truthy(savedLayout) && savedLayout.Arr? then savedLayout.items else elements
  }

  /** Some entry answers to `id` when its `id` is read. */
  predicate IdPresent(elements: seq<Value>, id: Value) {
    exists i :: 0 <= i < |elements| && PropertiesPanel.HasId(elements[i], id)
  }

  /**
   * `elements.find(el => el.id === id)`: the first entry with that id, or
   * undefined; reading `el.id` of a null or undefined entry reached before
   * a match throws.
   */
  function Find(elements: seq<Value>, id: Value): (r: Outcome<Value>)
    ensures r.Returned? ==> (r.value == Undefined <==> !IdPresent(elements, id))
    ensures r.Returned? && r.value != Undefined ==>
      exists i :: 0 <= i < |elements| && elements[i] == r.value && PropertiesPanel.HasId(elements[i], id) &&
        forall j :: 0 <= j < i ==> !PropertiesPanel.HasId(elements[j], id)
    ensures r.ThrewTypeError? <==>
      exists i :: 0 <= i < |elements| && Nullish(elements[i]) &&
        forall j :: 0 <= j < i ==> !PropertiesPanel.HasId(elements[j], id)
    decreases |elements|
  {
    if elements == [] then Returned(Undefined)
    else
      match Get(elements[0], "id")
      case ThrewTypeError => ThrewTypeError
      case Returned(elId) =>
        if elId == id then Returned(elements[0])
        else
          assert forall i :: 1 <= i < |elements| ==> elements[i] == elements[1..][i - 1];
          Find(elements[1..], id)
  }

  /** The selection-clearing effect: the selection after it has run. */
  function SelectionAfterEffect(elements: seq<Value>, selectedElement: Value): (r: Outcome<Value>)
    ensures !Truthy(selectedElement) ==> r == Returned(selectedElement)
    ensures r.Returned? ==> r.value == selectedElement || r.value == Null
    ensures r.Returned? && Truthy(selectedElement) && !IdPresent(elements, Prop(selectedElement, "id")) ==> r.value == Null
    ensures r.Returned? && Truthy(r.value) ==> IdPresent(elements, Prop(r.value, "id"))
    ensures r.ThrewTypeError? ==> exists i :: 0 <= i < |elements| && Nullish(elements[i])
  {
    if Truthy(selectedElement) then
      match Find(elements, Prop(selectedElement, "id"))
      case ThrewTypeError => ThrewTypeError
      case Returned(found) => if !Truthy(found) then Returned(Null) else Returned(selectedElement)
    else
      Returned(selectedElement)
  }

  /**
   * The effect tests the entry find returns for truthiness, not for
   * presence: with a selection that has no id, the first entry without an
   * id is the match, and when that entry is a falsy `0` the selection is
   * cleared although a later `{}` also matches.
   */
  lemma FalsyFirstMatchClears()
    ensures var selected := Obj(map["name" := Str("x")]);
      && IdPresent([Num(0.0), Obj(map[])], Prop(selected, "id"))
      && SelectionAfterEffect([Num(0.0), Obj(map[])], selected) == Returned(Null)
  {
    var elements := [Num(0.0), Obj(map[])];
    assert PropertiesPanel.HasId(elements[0], Undefined);
  }

  /**
   * In general a truthy selection is kept exactly when the first entry
   * carrying its id is itself truthy.
   */
  lemma {:induction false} SelectionKeptExactlyWhenFirstMatchTruthy(elements: seq<Value>, selectedElement: Value)
    requires Truthy(selectedElement)
    requires SelectionAfterEffect(elements, selectedElement).Returned?
    ensures var id := Prop(selectedElement, "id");
      SelectionAfterEffect(elements, selectedElement).value == selectedElement <==>
        exists i :: 0 <= i < |elements| && PropertiesPanel.HasId(elements[i], id) && Truthy(elements[i]) &&
          forall j :: 0 <= j < i ==> !PropertiesPanel.HasId(elements[j], id)
  {
    var id := Prop(selectedElement, "id");
    var found := Find(elements, id);
    if found.value != Undefined {
      var i :| 0 <= i < |elements| && elements[i] == found.value && PropertiesPanel.HasId(elements[i], id) &&
        forall j :: 0 <= j < i ==> !PropertiesPanel.HasId(elements[j], id);
    }
  }

  /** After the effect the selection is empty or answers to an id the list still holds. */
  lemma SelectionNeverDangles(elements: seq<Value>, selectedElement: Value)
    requires SelectionAfterEffect(elements, selectedElement).Returned?
    ensures var s := SelectionAfterEffect(elements, selectedElement).value;
      !Truthy(s) || IdPresent(elements, Prop(s, "id"))
  {
  }

  /**
   * For a list of element objects the effect never throws: it clears the
   * selection exactly when its id is gone, and leaves it untouched otherwise.
   */
  lemma SelectionClearedExactlyWhenDeleted(elements: seq<Value>, selectedElement: Value)
    requires forall i :: 0 <= i < |elements| ==> elements[i].Obj?
    ensures SelectionAfterEffect(elements, selectedElement).Returned?
    ensures Truthy(selectedElement) && !IdPresent(elements, Prop(selectedElement, "id")) ==>
      SelectionAfterEffect(elements, selectedElement).value == Null
    ensures !Truthy(selectedElement) || IdPresent(elements, Prop(selectedElement, "id")) ==>
      SelectionAfterEffect(elements, selectedElement).value == selectedElement
  {
  }

  /**
   * A panel edit as written: the list is updated and the selection keeps
   * pointing at the object it pointed at before the edit.
   */
  function EditAsWritten(elements: seq<Value>, selectedElement: Value, key: string, value: Value)
    : (r: Outcome<(seq<Value>, Value)>)
    ensures r.ThrewTypeError? <==>
      (exists i :: 0 <= i < |elements| && Nullish(elements[i])) || (elements != [] && Nullish(selectedElement))
    ensures r.Returned? ==> |r.value.0| == |elements| && r.value.1 == selectedElement
    ensures var h := PropertiesPanel.HandlePropertyChange(elements, selectedElement, key, value);
      r.Returned? ==> h.Returned? && r.value == (h.value, selectedElement)
  {
    match PropertiesPanel.HandlePropertyChange(elements, selectedElement, key, value)
    case ThrewTypeError => ThrewTypeError
    case Returned(updated) => Returned((updated, selectedElement))
  }

  /**
   * The input that shows it: after renaming the selected element from "a"
   * to "b", the list holds "b", the effect keeps the old selection, and the
   * panel still shows "a".
   */
  lemma StalePanelAfterEdit()
    ensures var e := Obj(map["id" := Num(1.0), "name" := Str("a")]);
      var r := EditAsWritten([e], e, "name", Str("b"));
      && r == Returned(([Obj(map["id" := Num(1.0), "name" := Str("b")])], e))
      && SelectionAfterEffect(r.value.0, r.value.1) == Returned(e)
      && PropertiesPanel.Render(r.value.1).name == Str("a")
  {
    var e := Obj(map["id" := Num(1.0), "name" := Str("a")]);
    var e' := Obj(map["id" := Num(1.0), "name" := Str("b")]);
    assert Spread(e)["name" := Str("b")] == e'.fields;
    assert PropertiesPanel.UpdateEntry(e, Num(1.0), "name", Str("b")) == e';
    assert Get(e, "id") == Returned(Num(1.0));
    assert [e][1..] == [];
    assert PropertiesPanel.HandlePropertyChange([e][1..], e, "name", Str("b")) == Returned([]);
    assert [e'] + [] == [e'];
    assert PropertiesPanel.HandlePropertyChange([e], e, "name", Str("b")) == Returned([e']);
    assert Find([e'], Num(1.0)) == Returned(e');
  }

  /**
   * A panel edit as evidently intended: the selection receives the same
   * shallow update as the list entry it stands for.
   */
  function EditSelected(elements: seq<Value>, selectedElement: Value, key: string, value: Value)
    : (r: Outcome<(seq<Value>, Value)>)
    ensures r.ThrewTypeError? <==>
      (exists i :: 0 <= i < |elements| && Nullish(elements[i])) || (elements != [] && Nullish(selectedElement))
    ensures r.Returned? ==> |r.value.0| == |elements| && r.value.1.Obj? && Prop(r.value.1, key) == value
    ensures r.Returned? ==> forall i :: 0 <= i < |elements| && elements[i] == selectedElement ==> r.value.0[i] == r.value.1
    ensures var h := PropertiesPanel.HandlePropertyChange(elements, selectedElement, key, value);
      r.Returned? ==> h.Returned? && r.value.0 == h.value && r.value.1.Obj? && r.value.1.fields == Spread(selectedElement)[key := value]
  {
    match PropertiesPanel.HandlePropertyChange(elements, selectedElement, key, value)
    case ThrewTypeError => ThrewTypeError
    case Returned(updated) =>
      Returned((updated, PropertiesPanel.UpdateEntry(selectedElement, Prop(selectedElement, "id"), key, value)))
  }

  /**
   * With the intended edit, the selection is the updated entry itself, it
   * survives the clearing effect, and the panel shows the new value.
   */
  lemma EditSelectedIsShown(elements: seq<Value>, i: nat, key: string, value: Value)
    requires i < |elements| && elements[i].Obj?
    requires forall j :: 0 <= j < |elements| ==> elements[j].Obj?
    requires key in {"name", "color", "width", "height"} && Truthy(value)
    ensures var r := EditSelected(elements, elements[i], key, value);
      && r.Returned?
      && r.value.1 == r.value.0[i]
      && SelectionAfterEffect(r.value.0, r.value.1) == Returned(r.value.1)
      && PropertiesPanel.Shown(PropertiesPanel.Render(r.value.1), key) == value
  {
  }

  /** The state App keeps: the element list and the selected element. */
  class AppState {
    var elements: seq<Value>
    var selectedElement: Value

    /** `useState([])` and `useState(null)` */
    constructor ()
      ensures elements == [] && selectedElement == Null
    {
      elements := [];
      selectedElement := Null;
    }

    /** The mount effect, given what the storage collaborator loaded. */
    method LoadSavedLayout(savedLayout: Value)
      modifies this
      ensures elements == LoadedElements(old(elements), savedLayout)
      ensures selectedElement == old(selectedElement)
    {
      if Truthy(savedLayout) && savedLayout.Arr? {
        elements := savedLayout.items;
      }
    }

    /** `setSelectedElement`, as the canvas calls it. */
    method Select(element: Value)
      modifies this
      ensures selectedElement == element && elements == old(elements)
    {
      selectedElement := element;
    }

    /** The selection-clearing effect; `threw` reports the TypeError of a null entry. */
    method ClearDeletedSelection() returns (threw: bool)
      modifies this
      ensures elements == old(elements)
      ensures threw <==> SelectionAfterEffect(elements, old(selectedElement)).ThrewTypeError?
      ensures threw ==> selectedElement == old(selectedElement)
      ensures !threw ==> selectedElement == SelectionAfterEffect(elements, old(selectedElement)).value
      ensures !threw ==> !Truthy(selectedElement) || IdPresent(elements, Prop(selectedElement, "id"))
    {
      var r := SelectionAfterEffect(elements, selectedElement);
      threw := r.ThrewTypeError?;
      if !threw {
        SelectionNeverDangles(elements, selectedElement);
        selectedElement := r.value;
      }
    }

    /** An edit from the properties panel as App wires it: the list is updated and the selection is not. */
    method ChangePropertyAsWritten(key: string, value: Value) returns (threw: bool)
      modifies this
      ensures threw <==> EditAsWritten(old(elements), old(selectedElement), key, value).ThrewTypeError?
      ensures threw ==> elements == old(elements)
      ensures selectedElement == old(selectedElement)
      ensures !threw ==> elements == EditAsWritten(old(elements), old(selectedElement), key, value).value.0
    {
      var r := EditAsWritten(elements, selectedElement, key, value);
      threw := r.ThrewTypeError?;
      if !threw {
        elements := r.value.0;
      }
    }

    /** An edit from the properties panel, with the selection kept in step with the list. */
    method ChangeProperty(key: string, value: Value) returns (threw: bool)
      modifies this
      ensures threw <==> EditSelected(old(elements), old(selectedElement), key, value).ThrewTypeError?
      ensures threw ==> elements == old(elements) && selectedElement == old(selectedElement)
      ensures !threw ==> (elements, selectedElement) == EditSelected(old(elements), old(selectedElement), key, value).value
    {
      var r := EditSelected(elements, selectedElement, key, value);
      threw := r.ThrewTypeError?;
      if !threw {
        elements, selectedElement := r.value.0, r.value.1;
      }
    }
  }
}
