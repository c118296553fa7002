/** The measuring button of `src/components/map/mapControls/measureDistance.jsx`
    (`MeasureDistanceControl`): a Mapbox control whose `icon` shows whether
    measuring is on. As for the unit button, the container and the React
    root are reduced to whether they exist and `onRemove`'s `setTimeout` to
    a count of pending clean-ups. */
module MeasureControl {

  class MeasureDistanceControl {
    /** `_mounted`. */
    var mounted: bool
    var hasContainer: bool
    var hasMap: bool
    var hasRoot: bool
    /** Whether the button shows measuring as active. */
    var icon: bool
    /** How many times the parent's `onClick` was called. */
    var callbacks: nat
    /** The `icon` values rendered into the root, oldest first. */
    var rendered: seq<bool>
    /** Clean-ups queued by `onRemove` and not yet run. */
    var pendingRemovals: nat

    constructor(measureMode: bool)
      ensures !mounted && !hasContainer && !hasMap && !hasRoot
      ensures icon == measureMode && callbacks == 0 && rendered == [] && pendingRemovals == 0
    {
      mounted := false;
      hasContainer := false;
      hasMap := false;
      hasRoot := false;
      icon := measureMode;
      callbacks := 0;
      rendered := [];
      pendingRemovals := 0;
    }

    /** `updateUI`: renders the current icon only when mounted with a root. */
    method UpdateUI()
      modifies this`rendered
      ensures rendered == if mounted && hasRoot then old(rendered) + [icon] else old(rendered)
    {
      if mounted && hasRoot {
        rendered := rendered + [icon];
      }
    }

    /** `handleClick`: nothing unless mounted with a map; otherwise call the
        parent, flip the icon and render it. */
    method HandleClick()
      modifies this`callbacks, this`icon, this`rendered
      ensures !old(mounted && hasMap) ==>
        callbacks == old(callbacks) && icon == old(icon) && rendered == old(rendered)
      ensures old(mounted && hasMap) ==>
        callbacks == old(callbacks) + 1 && icon == !old(icon)
        && rendered == old(rendered) + (if hasRoot then [icon] else [])
    {
      if !mounted || !hasMap {
        return;
      }
      callbacks := callbacks + 1;
      icon := !icon;
      UpdateUI();
    }

    /** `onAdd(map)`: keep the map, create the container and the root, mark
        the control mounted and render it. */
    method OnAdd()
      modifies this`hasMap, this`hasContainer, this`hasRoot, this`mounted, this`rendered
      ensures hasMap && hasContainer && hasRoot && mounted
      ensures rendered == old(rendered) + [icon]
    {
      hasMap := true;
      hasContainer := true;
      hasRoot := true;
      mounted := true;
      UpdateUI();
    }

    /** `onRemove`: the clean-up is only scheduled. */
    method OnRemove()
      modifies this`pendingRemovals
      ensures pendingRemovals == old(pendingRemovals) + 1
    {
      pendingRemovals := pendingRemovals + 1;
    }

    /** The scheduled clean-up of `onRemove` runs: unmounted, and root, map
        and container cleared. */
    method FireRemove()
      requires pendingRemovals > 0
      modifies this`pendingRemovals, this`mounted, this`hasRoot, this`hasMap, this`hasContainer
      ensures pendingRemovals == old(pendingRemovals) - 1
      ensures !mounted && !hasRoot && !hasMap && !hasContainer
    {
      pendingRemovals := pendingRemovals - 1;
      mounted := false;
      hasRoot := false;
      hasMap := false;
      hasContainer := false;
    }
  }
}
