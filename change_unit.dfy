/** The scale-unit button of `src/components/map/mapControls/changeUnit.jsx`
    (`ChangeUnitControl`): a Mapbox control that flips the scale unit between
    `km` and `mi`. The DOM container and the React root are reduced to
    whether they exist, a render to the unit it shows, and the `setTimeout`
    of `onRemove` to a count of pending clean-ups that `FireRemove` runs. */
module ChangeUnit {

  /** The unit after a click: `km` becomes `mi`, anything else `km`. */
  function NextUnit(unit: string): (r: string)
    ensures r == "mi" <==> unit == "km"
    ensures r == "km" <==> unit != "km"
  {
    if unit == "km" then "mi" else "km"
  }

  /** Two clicks restore the unit exactly when it started as `km` or `mi`. */
  lemma ClickTwiceRestores(unit: string)
    ensures NextUnit(NextUnit(unit)) == unit <==> unit == "km" || unit == "mi"
  {
  }

  class ChangeUnitControl {
    var hasMap: bool
    var hasContainer: bool
    var hasRoot: bool
    var unit: string
    /** `_mounted`. */
    var mounted: bool
    /** The units rendered into the root, oldest first. */
    var rendered: seq<string>
    /** The units handed to `setMapScaleUnit`, oldest first. */
    var published: seq<string>
    /** Clean-ups queued by `onRemove` and not yet run. */
    var pendingRemovals: nat

    constructor(mapScaleUnit: string)
      ensures !hasMap && !hasContainer && !hasRoot && !mounted
      ensures unit == mapScaleUnit && rendered == [] && published == [] && pendingRemovals == 0
    {
      hasMap := false;
      hasContainer := false;
      hasRoot := false;
      unit := mapScaleUnit;
      mounted := false;
      rendered := [];
      published := [];
      pendingRemovals := 0;
    }

    /** `updateUI`: renders the current unit only when mounted with a root. */
    method UpdateUI()
      modifies this`rendered
      ensures rendered == if mounted && hasRoot then old(rendered) + [unit] else old(rendered)
    {
      if mounted && hasRoot {
        rendered := rendered + [unit];
      }
    }

    /** `onClick`: nothing unless mounted with a map; otherwise flip the unit,
        render it and hand it to the parent. */
    method OnClick()
      modifies this`unit, this`rendered, this`published
      ensures !old(mounted && hasMap) ==>
        unit == old(unit) && rendered == old(rendered) && published == old(published)
      ensures old(mounted && hasMap) ==>
        unit == NextUnit(old(unit))
        && rendered == old(rendered) + (if hasRoot then [unit] else [])
        && published == old(published) + [unit]
    {
      if !mounted || !hasMap {
        return;
      }
      unit := NextUnit(unit);
      UpdateUI();
      published := published + [unit];
    }

    /** `onAdd(map)`: keep the map, create the container and the root, mark
        the control mounted and render it. */
    method OnAdd()
      modifies this`hasMap, this`hasContainer, this`hasRoot, this`mounted, this`rendered
      ensures hasMap && hasContainer && hasRoot && mounted
      ensures rendered == old(rendered) + [unit]
    {
      hasMap := true;
      hasContainer := true;
      hasRoot := true;
      mounted := true;
      UpdateUI();
    }

    /** `onRemove`: the clean-up is only scheduled. */
    method OnRemove()
      modifies this`pendingRemovals
      ensures pendingRemovals == old(pendingRemovals) + 1
    {
      pendingRemovals := pendingRemovals + 1;
    }

    /** The scheduled clean-up of `onRemove` runs: unmounted, and root, map
        and container cleared. */
    method FireRemove()
      requires pendingRemovals > 0
      modifies this`pendingRemovals, this`mounted, this`hasRoot, this`hasMap, this`hasContainer
      ensures pendingRemovals == old(pendingRemovals) - 1
      ensures !mounted && !hasRoot && !hasMap && !hasContainer
    {
      pendingRemovals := pendingRemovals - 1;
      mounted := false;
      hasRoot := false;
      hasMap := false;
      hasContainer := false;
    }
  }
}
