/**
 * How the elements createElement builds fare against the import-side
 * checks of src/utils/validateJson.js.
 */
module Consistency {
  import opened Js
  import ES = ElementStructure
  import VJ = ValidateJson

  /** A new building passes all three element checks. */
  lemma CreatedBuildingPassesEveryCheck(props: ES.Props, id: real, stamp: string)
    ensures var e := Obj(ES.CreateElement(ES.Building, props, id, stamp));
      ES.ValidElement(e) && VJ.LayoutEntryOk(e) && VJ.ValidElement(e) == Returned(true)
  {
  }

  /** A new road passes all three checks exactly when its points number four. */
  lemma CreatedRoadPassesEveryCheck(props: ES.Props, id: real, stamp: string)
    ensures var e := Obj(ES.CreateElement(ES.Road, props, id, stamp));
      (props.points.None? || |props.points.value| == 4) <==>
        ES.ValidElement(e) && VJ.LayoutEntryOk(e) && VJ.ValidElement(e) == Returned(true)
  {
  }

  /**
   * A new business marker carries a radius and no width or height, so
   * the element module accepts it and both import checks reject it.
   */
  lemma CreatedBusinessFailsImportChecks(props: ES.Props, id: real, stamp: string)
    ensures var e := Obj(ES.CreateElement(ES.Business, props, id, stamp));
      ES.ValidElement(e) && !VJ.LayoutEntryOk(e) && VJ.ValidElement(e) == Returned(false)
  {
  }
}
