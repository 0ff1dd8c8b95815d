/**
 * The two import-side checks over parsed JSON (src/utils/validateJson.js):
 * validateLayoutJson on a whole layout and validateElement on one entry.
 */
module ValidateJson {
  import opened Js

  /** `['building', 'road', 'business'].includes(kind)` */
  predicate KnownKind(kind: Value) {
    kind == Str("building") || kind == Str("road") || kind == Str("business")
  }

  /** `Array.isArray(v) && v.length === 4` */
  predicate FourItems(v: Value) {
    v.Arr? && |v.items| == 4
  }

  /** `v.every(point => typeof point === 'number')` */
  predicate AllNumbers(v: Value)
    requires v.Arr?
  {
    forall i :: 0 <= i < |v.items| ==> v.items[i].Num?
  }

  /** The geometry validateLayoutJson demands of a building or business entry. */
  predicate BoxNumbers(element: Value) {
    && Prop(element, "x").Num?
    && Prop(element, "y").Num?
    && Prop(element, "width").Num?
    && Prop(element, "height").Num?
  }

  /**
   * The test validateLayoutJson applies to one entry, for an entry whose
   * properties can be read (anything but null and undefined; a number or a
   * string reads every property as undefined).
   */
  function LayoutEntryOk(element: Value): (ok: bool)
    ensures ok ==> Prop(element, "id").Num? || Prop(element, "id").Str?
    ensures ok ==> KnownKind(Prop(element, "type")) && Prop(element, "color").Str?
    ensures ok && Prop(element, "type") == Str("road") ==>
      && FourItems(Prop(element, "points")) && AllNumbers(Prop(element, "points"))
      && Prop(element, "width").Num?
    ensures ok && Prop(element, "type") != Str("road") ==> BoxNumbers(element)
    ensures Nullish(element) ==> !ok
  {
    var id := Prop(element, "id");
    var kind := Prop(element, "type");
    var hasBasicProps := (id.Num? || id.Str?) && kind.Str? && KnownKind(kind) && Prop(element, "color").Str?;
    if !hasBasicProps then false
    else if kind == Str("road") then
      var points := Prop(element, "points");
      FourItems(points) && AllNumbers(points) && Prop(element, "width").Num?
    else
      BoxNumbers(element)
  }

  /** The entry test decides by the shape of the entry alone, in both directions. */
  lemma LayoutEntryOkExactly(element: Value)
    ensures LayoutEntryOk(element) <==>
      && (Prop(element, "id").Num? || Prop(element, "id").Str?)
      && KnownKind(Prop(element, "type"))
      && Prop(element, "color").Str?
      && if Prop(element, "type") == Str("road") then
           FourItems(Prop(element, "points")) && AllNumbers(Prop(element, "points")) && Prop(element, "width").Num?
         else
           BoxNumbers(element)
  {
  }

  /**
   * One step of `json.every(...)` as written: `element.id` is read first,
   * so a null or undefined entry throws instead of failing the test.
   */
  function LayoutEntryAsWritten(element: Value): (r: Outcome<bool>)
    ensures r.ThrewTypeError? <==> Nullish(element)
    ensures r.Returned? ==> (r.value <==> LayoutEntryOk(element))
  {
    match Get(element, "id")
    case ThrewTypeError => ThrewTypeError
    case Returned(_) => Returned(LayoutEntryOk(element))
  }

  /** `Array.prototype.every` with the as-written test: it stops at the first entry that fails or throws. */
  function EveryAsWritten(items: seq<Value>): (r: Outcome<bool>)
    ensures r.Returned? ==> (r.value <==> forall i :: 0 <= i < |items| ==> LayoutEntryOk(items[i]))
    ensures r.ThrewTypeError? <==>
      exists i :: 0 <= i < |items| && Nullish(items[i]) && forall j :: 0 <= j < i ==> LayoutEntryOk(items[j])
    decreases |items|
  {
    if items == [] then Returned(true)
    else
      match LayoutEntryAsWritten(items[0])
      case ThrewTypeError => ThrewTypeError
      case Returned(ok) =>
        if !ok then Returned(false)
        else
          var rest := EveryAsWritten(items[1..]);
          assert forall i :: 1 <= i < |items| ==> items[i] == items[1..][i - 1];
          rest
  }

  /** validateLayoutJson exactly as written. */
  function ValidateLayoutJsonAsWritten(json: Value): (r: Outcome<bool>)
    ensures !json.Arr? ==> r == Returned(false)
    ensures r.Returned? ==> (r.value <==> json.Arr? && forall i :: 0 <= i < |json.items| ==> LayoutEntryOk(json.items[i]))
    ensures r.ThrewTypeError? ==> json.Arr? && exists i :: 0 <= i < |json.items| && Nullish(json.items[i])
  {
    if !json.Arr? then Returned(false) else EveryAsWritten(json.items)
  }

  /**
   * validateLayoutJson as evidently intended: a boolean verdict, with a null
   * or undefined entry rejected like any other malformed entry.
   */
  function ValidateLayoutJson(json: Value): (ok: bool)
    ensures !json.Arr? ==> !ok
    ensures json == Arr([]) ==> ok
    ensures json.Arr? ==> (ok <==> forall i :: 0 <= i < |json.items| ==> LayoutEntryOk(json.items[i]))
  {
    json.Arr? && forall i :: 0 <= i < |json.items| ==> LayoutEntryOk(json.items[i])
  }

  /** One bad entry rejects the whole layout. */
  lemma OneBadEntryRejectsLayout(items: seq<Value>, k: nat)
    requires k < |items| && !LayoutEntryOk(items[k])
    ensures !ValidateLayoutJson(Arr(items))
  {
  }

  /** Where the code as written returns a verdict, it is the intended one; it throws exactly when a null entry comes before any rejected one. */
  lemma LayoutAsWrittenAgrees(json: Value)
    ensures ValidateLayoutJsonAsWritten(json).Returned? ==>
      ValidateLayoutJsonAsWritten(json).value == ValidateLayoutJson(json)
    ensures (json.Arr? && forall i :: 0 <= i < |json.items| ==> !Nullish(json.items[i])) ==>
      ValidateLayoutJsonAsWritten(json) == Returned(ValidateLayoutJson(json))
  {
  }

  /** The input that shows it: a layout holding one null entry. */
  lemma NullEntryThrows()
    ensures ValidateLayoutJsonAsWritten(Arr([Null])) == ThrewTypeError
    ensures !ValidateLayoutJson(Arr([Null]))
  {
  }

  /** The properties validateElement demands to be present and neither null nor undefined. */
  const RequiredProps: seq<string> := ["id", "type", "name", "color"]

  predicate HasRequired(element: Value) {
    forall p :: p in RequiredProps ==> HasOwn(element, p) && !Nullish(Prop(element, p))
  }

  /**
   * validateElement of the import module. `element.hasOwnProperty(prop)`
   * calls the property of that name: a parsed object whose own keys include
   * "hasOwnProperty" holds a number, string, array, object or null there,
   * none of them callable, so the first call throws a TypeError.
   */
  function ValidElement(element: Value): (r: Outcome<bool>)
    ensures r.ThrewTypeError? <==> HasOwn(element, "hasOwnProperty")
    ensures r == Returned(true) ==> element.Obj? && HasRequired(element) && KnownKind(Prop(element, "type"))
    ensures r == Returned(true) && Prop(element, "type") == Str("road") ==>
      FourItems(Prop(element, "points")) && Prop(element, "width").Num?
    ensures r == Returned(true) && Prop(element, "type") != Str("road") ==> BoxNumbers(element)
  {
    if !Truthy(element) || !IsObject(element) then Returned(false)
    else if HasOwn(element, "hasOwnProperty") then ThrewTypeError
    else if !HasRequired(element) then Returned(false)
    else
      var kind := Prop(element, "type");
      if kind == Str("building") || kind == Str("business") then Returned(BoxNumbers(element))
      else if kind == Str("road") then Returned(FourItems(Prop(element, "points")) && Prop(element, "width").Num?)
      else Returned(false)
  }

  /** An object with the required properties is valid exactly when its per-type rule holds, unless it shadows hasOwnProperty. */
  lemma ValidElementExactly(element: Value)
    requires element.Obj? && HasRequired(element)
    ensures ValidElement(element) ==
      if HasOwn(element, "hasOwnProperty") then ThrewTypeError
      else if Prop(element, "type") == Str("road") then
        Returned(FourItems(Prop(element, "points")) && Prop(element, "width").Num?)
      else
        Returned(KnownKind(Prop(element, "type")) && BoxNumbers(element))
  {
  }

  /** The input that shows the throw: a road entry carrying its own "hasOwnProperty" key. */
  lemma ShadowedHasOwnPropertyThrows()
    ensures var e := Obj(map["hasOwnProperty" := Num(1.0), "id" := Num(1.0), "type" := Str("road"), "name" := Str("r"),
                            "color" := Str("#000"), "points" := Arr([Num(0.0), Num(0.0), Num(1.0), Num(1.0)]), "width" := Num(5.0)]);
      ValidElement(e) == ThrewTypeError && LayoutEntryOk(e)
  {
  }

  /** A layout entry that also carries a name passes validateElement, unless it shadows hasOwnProperty: the name is all that separates the two checks in that direction. */
  lemma LayoutEntryWithNameIsValidElement(element: Value)
    requires LayoutEntryOk(element)
    requires HasOwn(element, "name") && !Nullish(Prop(element, "name"))
    ensures ValidElement(element) == if HasOwn(element, "hasOwnProperty") then ThrewTypeError else Returned(true)
  {
  }

  /** An entry without a name passes validateLayoutJson and fails validateElement. */
  lemma NamelessEntrySplitsTheChecks()
    ensures var e := Obj(map["id" := Num(1.0), "type" := Str("building"), "color" := Str("#000"),
                            "x" := Num(1.0), "y" := Num(1.0), "width" := Num(10.0), "height" := Num(10.0)]);
      ValidateLayoutJson(Arr([e])) && ValidElement(e) == Returned(false)
  {
    var e := Obj(map["id" := Num(1.0), "type" := Str("building"), "color" := Str("#000"),
                     "x" := Num(1.0), "y" := Num(1.0), "width" := Num(10.0), "height" := Num(10.0)]);
    assert "name" in RequiredProps;
    assert !HasOwn(e, "name");
  }

  /** validateElement does not look at the types of a road's points. */
  lemma RoadPointTypesUnchecked()
    ensures var e := Obj(map["id" := Num(1.0), "type" := Str("road"), "name" := Str("r"), "color" := Str("#000"),
                            "points" := Arr([Str("a"), Null, Bool(true), Arr([])]), "width" := Num(5.0)]);
      ValidElement(e) == Returned(true) && !LayoutEntryOk(e)
  {
    var e := Obj(map["id" := Num(1.0), "type" := Str("road"), "name" := Str("r"), "color" := Str("#000"),
                     "points" := Arr([Str("a"), Null, Bool(true), Arr([])]), "width" := Num(5.0)]);
    assert forall p :: p in RequiredProps ==> p in {"id", "type", "name", "color"};
    assert !Prop(e, "points").items[0].Num?;
  }
}
