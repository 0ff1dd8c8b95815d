/**
 * The properties panel (src/components/PropertiesPanel.js): the
 * copy-on-write update of the selected element and the values the form
 * displays for it.
 */
module PropertiesPanel {
  import opened Js

  /** `el.id === selectedElement.id ? { ...el, [key]: value } : el`, once both ids are read. */
  function UpdateEntry(el: Value, selectedId: Value, key: string, value: Value): (r: Value)
    ensures Prop(el, "id") != selectedId ==> r == el
    ensures Prop(el, "id") == selectedId ==>
      r.Obj? && Prop(r, key) == value && forall k :: k != key ==> Prop(r, k) == Prop(el, k)
  {
    if Prop(el, "id") == selectedId then Obj(Spread(el)[key := value]) else el
  }

  /**
   * handlePropertyChange: `elements.map(...)`. The callback reads `el.id`
   * and then `selectedElement.id`, so a null or undefined entry, or a
   * missing selection when there is any entry, throws a TypeError.
   */
  function HandlePropertyChange(elements: seq<Value>, selectedElement: Value, key: string, value: Value)
    : (r: Outcome<seq<Value>>)
    ensures r.ThrewTypeError? <==>
      (exists i :: 0 <= i < |elements| && Nullish(elements[i])) || (elements != [] && Nullish(selectedElement))
    ensures r.Returned? ==> |r.value| == |elements|
    ensures r.Returned? ==> forall i :: 0 <= i < |elements| ==>
      (Prop(elements[i], "id") != Prop(selectedElement, "id") ==> r.value[i] == elements[i])
    ensures r.Returned? ==> forall i :: 0 <= i < |elements| ==>
      (Prop(elements[i], "id") == Prop(selectedElement, "id") ==>
        r.value[i].Obj? && r.value[i].fields == Spread(elements[i])[key := value])
    decreases |elements|
  {
    if elements == [] then Returned([])
    else
      match Get(elements[0], "id")
      case ThrewTypeError => ThrewTypeError
      case Returned(elId) =>
        match Get(selectedElement, "id")
        case ThrewTypeError => ThrewTypeError
        case Returned(selectedId) =>
          var head := UpdateEntry(elements[0], selectedId, key, value);
          match HandlePropertyChange(elements[1..], selectedElement, key, value)
          case ThrewTypeError =>
            assert forall i :: 1 <= i < |elements| ==> elements[i] == elements[1..][i - 1];
            ThrewTypeError
          case Returned(rest) =>
            assert forall i :: 1 <= i < |elements| ==> elements[i] == elements[1..][i - 1];
            Returned([head] + rest)
  }

  /** The selected element gets `key` set to `value`; every other field keeps its value. */
  lemma EditSetsOnlyKey(elements: seq<Value>, selectedElement: Value, key: string, value: Value, i: nat)
    requires HandlePropertyChange(elements, selectedElement, key, value).Returned?
    requires i < |elements| && elements[i].Obj?
    requires Prop(elements[i], "id") == Prop(selectedElement, "id")
    ensures var updated := HandlePropertyChange(elements, selectedElement, key, value).value[i];
      && Prop(updated, key) == value
      && (forall k :: k != key ==> (HasOwn(updated, k) <==> HasOwn(elements[i], k)))
      && (forall k :: k != key ==> Prop(updated, k) == Prop(elements[i], k))
  {
  }

  /** When no element carries the selected id, the list comes back equal to the input. */
  lemma NoMatchIsIdentity(elements: seq<Value>, selectedElement: Value, key: string, value: Value)
    requires forall i :: 0 <= i < |elements| ==> Prop(elements[i], "id") != Prop(selectedElement, "id")
    requires HandlePropertyChange(elements, selectedElement, key, value).Returned?
    ensures HandlePropertyChange(elements, selectedElement, key, value).value == elements
  {
    var r := HandlePropertyChange(elements, selectedElement, key, value).value;
    assert |r| == |elements|;
    assert forall i :: 0 <= i < |r| ==> r[i] == elements[i];
  }

  /** The id an entry answers to, as `el.id` reads it. */
  predicate HasId(el: Value, id: Value) {
    !Nullish(el) && Prop(el, "id") == id
  }

  /** An edit of any field but `id` keeps the set of ids the list answers to. */
  lemma EditKeepsIds(elements: seq<Value>, selectedElement: Value, key: string, value: Value, id: Value)
    requires key != "id"
    requires HandlePropertyChange(elements, selectedElement, key, value).Returned?
    ensures var updated := HandlePropertyChange(elements, selectedElement, key, value).value;
      forall i :: 0 <= i < |elements| ==> (HasId(elements[i], id) <==> HasId(updated[i], id))
  {
  }

  /** What the form shows: a placeholder, or the four edited fields with their fallbacks. */
  datatype PanelView =
    | Placeholder
    | Editor(name: Value, color: Value, width: Value, height: Value)

  /** The rendered panel for the current selection. */
  function Render(selectedElement: Value): (view: PanelView)
    ensures view.Placeholder? <==> !Truthy(selectedElement)
    ensures view.Editor? ==> Truthy(view.color) && (Truthy(view.name) || view.name == Str(""))
    ensures view.Editor? ==> (Truthy(view.width) || view.width == Num(0.0)) && (Truthy(view.height) || view.height == Num(0.0))
    ensures view.Editor? ==>
      && (!Truthy(Prop(selectedElement, "name")) ==> view.name == Str(""))
      && (!Truthy(Prop(selectedElement, "color")) ==> view.color == Str("#000000"))
      && (!Truthy(Prop(selectedElement, "width")) ==> view.width == Num(0.0))
      && (!Truthy(Prop(selectedElement, "height")) ==> view.height == Num(0.0))
    ensures view.Editor? ==>
      forall k :: k in {"name", "color", "width", "height"} && Truthy(Prop(selectedElement, k)) ==>
        Shown(view, k) == Prop(selectedElement, k)
  {
    if !Truthy(selectedElement) then Placeholder
    else Editor(
      Or(Prop(selectedElement, "name"), Str("")),
      Or(Prop(selectedElement, "color"), Str("#000000")),
      Or(Prop(selectedElement, "width"), Num(0.0)),
      Or(Prop(selectedElement, "height"), Num(0.0)))
  }

  /** The value the form shows for one of its four fields. */
  function Shown(view: PanelView, k: string): Value
    requires view.Editor?
  {
    if k == "name" then view.name
    else if k == "color" then view.color
    else if k == "width" then view.width
    else view.height
  }

  /** A falsy field shows its fallback. */
  lemma FalsyFieldsShowFallbacks(selectedElement: Value)
    requires Truthy(selectedElement)
    ensures var view := Render(selectedElement);
      && (!Truthy(Prop(selectedElement, "name")) ==> view.name == Str(""))
      && (!Truthy(Prop(selectedElement, "color")) ==> view.color == Str("#000000"))
      && (!Truthy(Prop(selectedElement, "width")) ==> view.width == Num(0.0))
      && (!Truthy(Prop(selectedElement, "height")) ==> view.height == Num(0.0))
  {
  }

  /** Without a selection there is no form, and the handler cannot update a non-empty list. */
  lemma NoSelectionNoUpdate(elements: seq<Value>, key: string, value: Value)
    ensures Render(Null) == Placeholder
    ensures elements != [] ==> HandlePropertyChange(elements, Null, key, value).ThrewTypeError?
  {
  }
}
