/**
 * The element record of the layout: construction with per-kind defaults,
 * the structural check on an element, and the merge of a canvas shape's
 * geometry back onto an element (src/utils/elementStructure.js).
 */
module ElementStructure {
  import opened Js

  const Building := "building"
  const Road := "road"
  const Business := "business"

  /**
   * The `props` argument of createElement. `None` is an absent key; a
   * present key may still be falsy (`0`, `''`), which the defaults treat
   * like an absent one.
   */
  datatype Props = Props(
    name: Option<string>,
    description: Option<string>,
    color: Option<string>,
    x: Option<real>,
    y: Option<real>,
    width: Option<real>,
    height: Option<real>,
    radius: Option<real>,
    points: Option<seq<real>>)

  /** A numeric prop that `props.k || d` keeps: present and non-zero. */
  predicate Given(o: Option<real>) {
    o.Some? && o.value != 0.0
  }

  /** `props.k || fallback` for a numeric prop. */
  function OrNumber(o: Option<real>, fallback: real): real {
    if Given(o) then o.value else fallback
  }

  /** `props.k || fallback` for a string prop. */
  function OrString(o: Option<string>, fallback: string): string {
    if o.Some? && o.value != "" then o.value else fallback
  }

  /** `props.points || fallback`: an array is truthy even when empty. */
  function OrPoints(o: Option<seq<real>>, fallback: seq<real>): seq<real> {
    if o.Some? then o.value else fallback
  }

  /** A JavaScript array of numbers. */
  function Numbers(xs: seq<real>): (r: Value)
    ensures r.Arr? && |r.items| == |xs|
    ensures forall i :: 0 <= i < |xs| ==> r.items[i] == Num(xs[i])
  {
    Arr(seq(|xs|, i requires 0 <= i < |xs| => Num(xs[i])))
  }

  /** getDefaultColor: the colour table with black for every other type. */
  function DefaultColor(kind: string): (color: string)
    ensures color != ""
    ensures color == "#808080" <==> kind == Building
    ensures color == "#FFA500" <==> kind == Business
    ensures color == "#000000" <==> kind != Building && kind != Business
  {
    if kind == Building then "#808080"
    else if kind == Road then "#000000"
    else if kind == Business then "#FFA500"
    else "#000000"
  }

  /** The fields every element gets, whatever its type. */
  const BaseKeys: set<string> := {"id", "type", "name", "description", "color", "x", "y"}

  /** The fields createElement adds for a type. */
  function KindKeys(kind: string): set<string> {
    if kind == Building then {"width", "height"}
    else if kind == Road then {"points", "width"}
    else if kind == Business then {"radius"}
    else {}
  }

  /** The shared part of createElement; `id` and `stamp` stand for the clock and random source. */
  function BaseElement(kind: string, props: Props, id: real, stamp: string): Record {
    map[
      "id" := Num(id),
      "type" := Str(kind),
      "name" := Str(OrString(props.name, kind + " " + stamp)),
      "description" := Str(OrString(props.description, "")),
      "color" := Str(OrString(props.color, DefaultColor(kind))),
      "x" := Num(OrNumber(props.x, 50.0)),
      "y" := Num(OrNumber(props.y, 50.0))
    ]
  }

  /**
   * createElement. `id` is the value of `Date.now() + Math.random()` and
   * `stamp` the decimal text of the second `Date.now()` call.
   */
  function CreateElement(kind: string, props: Props, id: real, stamp: string): (e: Record)
    ensures e.Keys == BaseKeys + KindKeys(kind)
    ensures e["id"] == Num(id) && e["type"] == Str(kind)
    ensures e["color"].Str? && e["color"].s != ""
    ensures e["x"].Num? && e["x"].n != 0.0 && e["y"].Num? && e["y"].n != 0.0
  {
    var base := BaseElement(kind, props, id, stamp);
    var x := OrNumber(props.x, 50.0);
    var y := OrNumber(props.y, 50.0);
    if kind == Building then
      base["width" := Num(OrNumber(props.width, 40.0))]["height" := Num(OrNumber(props.height, 40.0))]
    else if kind == Road then
      base["points" := Numbers(OrPoints(props.points, [x, y, x + 100.0, y]))]
        ["width" := Num(OrNumber(props.width, 5.0))]
    else if kind == Business then
      base["radius" := Num(OrNumber(props.radius, 20.0))]
    else
      base
  }

  lemma CreateCommonDefaults(kind: string, props: Props, id: real, stamp: string)
    ensures var e := CreateElement(kind, props, id, stamp);
      && (Given(props.x) ==> e["x"] == Num(props.x.value))
      && (!Given(props.x) ==> e["x"] == Num(50.0))
      && (Given(props.y) ==> e["y"] == Num(props.y.value))
      && (!Given(props.y) ==> e["y"] == Num(50.0))
      && (props.color.Some? && props.color.value != "" ==> e["color"] == Str(props.color.value))
      && (props.color.None? || props.color == Some("") ==> e["color"] == Str(DefaultColor(kind)))
      && (props.name.None? ==> e["name"] == Str(kind + " " + stamp))
      && (props.description.None? ==> e["description"] == Str(""))
  {
  }

  lemma CreateBuildingDefaults(props: Props, id: real, stamp: string)
    ensures var e := CreateElement(Building, props, id, stamp);
      && (Given(props.width) ==> e["width"] == Num(props.width.value))
      && (!Given(props.width) ==> e["width"] == Num(40.0))
      && (Given(props.height) ==> e["height"] == Num(props.height.value))
      && (!Given(props.height) ==> e["height"] == Num(40.0))
  {
  }

  lemma CreateRoadDefaults(props: Props, id: real, stamp: string)
    ensures var e := CreateElement(Road, props, id, stamp);
      var x := e["x"].n;
      var y := e["y"].n;
      && (props.points.None? ==> e["points"] == Arr([Num(x), Num(y), Num(x + 100.0), Num(y)]))
      && (props.points.Some? ==> e["points"] == Numbers(props.points.value))
      && (!Given(props.width) ==> e["width"] == Num(5.0))
      && (Given(props.width) ==> e["width"] == Num(props.width.value))
  {
  }

  lemma CreateBusinessDefaults(props: Props, id: real, stamp: string)
    ensures var e := CreateElement(Business, props, id, stamp);
      && (Given(props.radius) ==> e["radius"] == Num(props.radius.value))
      && (!Given(props.radius) ==> e["radius"] == Num(20.0))
      && "width" !in e && "height" !in e
  {
  }

  /** The fields validateElement demands of every element, in its order. */
  const RequiredFields: seq<string> := ["id", "type", "x", "y", "color", "name"]

  predicate KnownKind(kind: Value) {
    kind == Str(Building) || kind == Str(Road) || kind == Str(Business)
  }

  /** The per-type part of validateElement, for an object with all the required fields. */
  predicate KindRule(element: Value) {
    var kind := Prop(element, "type");
    if kind == Str(Building) then
      HasOwn(element, "width") && HasOwn(element, "height")
    else if kind == Str(Road) then
      HasOwn(element, "points") && Prop(element, "points").Arr? && |Prop(element, "points").items| >= 4
    else if kind == Str(Business) then
      HasOwn(element, "radius")
    else
      false
  }

  /** validateElement of the element structure module. */
  function ValidElement(element: Value): (ok: bool)
    ensures !IsObject(element) ==> !ok
    ensures (exists f :: f in RequiredFields && !HasOwn(element, f)) ==> !ok
    ensures !KnownKind(Prop(element, "type")) ==> !ok
    ensures ok ==> element.Obj?
  {
    if !Truthy(element) || !IsObject(element) then false
    else if exists f :: f in RequiredFields && !HasOwn(element, f) then false
    else KindRule(element)
  }

  /** For an object carrying every required field, validity is exactly the per-type rule. */
  lemma ValidElementExactly(element: Value)
    requires element.Obj?
    requires forall f :: f in RequiredFields ==> f in element.fields
    ensures ValidElement(element) <==> KindRule(element)
  {
  }

  lemma CreatedElementsValidate(kind: string, props: Props, id: real, stamp: string)
    requires kind == Building || kind == Business || (kind == Road && (props.points.None? || |props.points.value| >= 4))
    ensures ValidElement(Obj(CreateElement(kind, props, id, stamp)))
  {
  }

  lemma CreatedRoadWithShortPointsIsInvalid(props: Props, id: real, stamp: string)
    requires props.points.Some? && |props.points.value| < 4
    ensures !ValidElement(Obj(CreateElement(Road, props, id, stamp)))
  {
  }

  lemma CreatedUnknownKindIsInvalid(kind: string, props: Props, id: real, stamp: string)
    requires kind != Building && kind != Road && kind != Business
    ensures CreateElement(kind, props, id, stamp).Keys == BaseKeys
    ensures !ValidElement(Obj(CreateElement(kind, props, id, stamp)))
  {
  }

  /** The properties of a fabric.js shape that fabricToElement reads. */
  datatype FabricShape = FabricShape(
    left: real,
    top: real,
    fill: Value,
    stroke: Value,
    width: real,
    height: real,
    scaleX: real,
    scaleY: real,
    radius: real,
    strokeWidth: real,
    x1: real,
    y1: real,
    x2: real,
    y2: real)

  /** The fields fabricToElement writes for an element whose `type` is `kind`. */
  function Overwritten(kind: Value): set<string> {
    {"x", "y", "color"} +
    if kind == Str(Building) then {"width", "height"}
    else if kind == Str(Road) then {"points", "width"}
    else if kind == Str(Business) then {"radius"}
    else {}
  }

  /** fabricToElement: the shape's position, colour and size merged onto the element. */
  function FabricToElement(shape: FabricShape, original: Record): (r: Record)
    ensures r.Keys == original.Keys + Overwritten(Prop(Obj(original), "type"))
    ensures forall k :: k in original && k !in Overwritten(Prop(Obj(original), "type")) ==> r[k] == original[k]
    ensures r["x"] == Num(shape.left) && r["y"] == Num(shape.top)
    ensures r["color"] == Or(shape.fill, shape.stroke)
  {
    var baseUpdate := original["x" := Num(shape.left)]["y" := Num(shape.top)]["color" := Or(shape.fill, shape.stroke)];
    var kind := Prop(Obj(original), "type");
    if kind == Str(Building) then
      baseUpdate["width" := Num(shape.width * shape.scaleX)]["height" := Num(shape.height * shape.scaleY)]
    else if kind == Str(Road) then
      baseUpdate["points" := Numbers([shape.x1, shape.y1, shape.x2, shape.y2])]["width" := Num(shape.strokeWidth)]
    else if kind == Str(Business) then
      baseUpdate["radius" := Num(shape.radius * shape.scaleX)]
    else
      baseUpdate
  }

  lemma FabricKeepsIdentity(shape: FabricShape, original: Record)
    ensures var r := FabricToElement(shape, original);
      forall k :: k in ["id", "type", "name", "description"] ==>
        (k in r <==> k in original) && (k in original ==> r[k] == original[k])
  {
  }

  lemma FabricKindFields(shape: FabricShape, original: Record)
    ensures var r := FabricToElement(shape, original);
      var kind := Prop(Obj(original), "type");
      && (kind == Str(Building) ==>
            r["width"] == Num(shape.width * shape.scaleX) && r["height"] == Num(shape.height * shape.scaleY))
      && (kind == Str(Road) ==>
            r["points"] == Arr([Num(shape.x1), Num(shape.y1), Num(shape.x2), Num(shape.y2)])
            && r["width"] == Num(shape.strokeWidth))
      && (kind == Str(Business) ==> r["radius"] == Num(shape.radius * shape.scaleX))
      && (!KnownKind(kind) ==> r.Keys == original.Keys + {"x", "y", "color"})
  {
  }

  /** Merging the same shape twice changes nothing the first merge did not. */
  lemma FabricIdempotent(shape: FabricShape, original: Record)
    ensures FabricToElement(shape, FabricToElement(shape, original)) == FabricToElement(shape, original)
  {
  }

  /** A valid element stays valid once a shape's geometry is merged back onto it. */
  lemma FabricPreservesValidity(shape: FabricShape, original: Record)
    requires ValidElement(Obj(original))
    ensures ValidElement(Obj(FabricToElement(shape, original)))
  {
  }
}
