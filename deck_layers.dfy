/** The deck.gl overlay manager of `src/components/map/deckgl/deckLayerManager.jsx`:
    it hides the circles once the map is zoomed in, flies to a circle's box
    on click, sets the hover cursor and tooltip, and pushes the raster and
    circle layers to the overlay. The overlay and the map are reduced to
    whether they exist and what was asked of them. */
module DeckLayerManager {
  import opened Wrappers
  import opened Text
  import opened Geo
  import AreaCircle

  /** `ZOOM_LEVEL_MARGIN` of this file. */
  const ZoomLevelMargin: real := 4.0

  /** `bbox[i]`, `undefined` past the end. */
  function At(bbox: seq<real>, i: nat): Option<real> {
    if i < |bbox| then Some(bbox[i]) else None
  }

  /** `[[bbox[0], bbox[1]], [bbox[2], bbox[3]]]`: the two corners handed to
      `map.fitBounds`. */
  function FitBoxOf(bbox: seq<real>): (f: seq<seq<Option<real>>>)
    ensures |f| == 2 && |f[0]| == 2 && |f[1]| == 2
    ensures forall c, k :: 0 <= c < 2 && 0 <= k < 2 ==>
      f[c][k] == (if 2 * c + k < |bbox| then Some(bbox[2 * c + k]) else None)
  {
    [[At(bbox, 0), At(bbox, 1)], [At(bbox, 2), At(bbox, 3)]]
  }

  /** A box taken from a clicked circle fits the map to its south-west and
      north-east corners, all four coordinates defined and the two corners
      apart in both directions. */
  lemma CircleClickFitsItsBox(stacData: seq<VizItem>, showCircle: bool, it: VizItem)
    requires it in AreaCircle.CircleLayerFor(Some(stacData), showCircle).value.data
    ensures AreaCircle.OnPick(Some(it), true).Some?
    ensures var f := FitBoxOf(AreaCircle.OnPick(Some(it), true).value);
            (forall c, k :: 0 <= c < 2 && 0 <= k < 2 ==> f[c][k].Some?)
            && f[0][0] != f[1][0] && f[0][1] != f[1][1]
  {
    AreaCircle.CirclesHaveProperBoxes(Some(stacData), showCircle, it);
  }

  /** The text the hover tooltip shows for an item id: what follows the last
      `-`. */
  function TooltipFor(itemId: string): (t: string)
    ensures '-' !in t
    ensures |t| <= |itemId| && itemId[|itemId| - |t|..] == t
    ensures '-' !in itemId ==> t == itemId
  {
    LastPartIsSuffix(itemId, '-');
    LastPart(itemId, '-')
  }

  /** The layers the overlay shows. */
  datatype DeckLayer =
    | DeckRasterLayer(collectionId: string, asset: string)
    | DeckCircleLayer(circle: AreaCircle.CircleLayer)

  class DeckLayers {
    /** The `showCircle` state. */
    var showCircle: bool
    /** The last values handed to the parent's `setZoomLevel` and
        `setZoomLocation`; `None` until the first hand-over. */
    var zoomLevel: Option<real>
    var zoomLocation: Option<seq<real>>
    /** The boxes handed to `map.fitBounds`, oldest first. */
    var fitted: seq<seq<seq<Option<real>>>>
    /** What the overlay's `getCursor` and `getTooltip` return. */
    var cursor: Option<string>
    var tooltip: Option<string>
    /** The overlay's `layers`. */
    var overlayLayers: Option<seq<DeckLayer>>
    /** Whether the overlay and the map existed at the first render: the two
        `useCallback(…, [])` handlers keep seeing these. */
    const overlayAtFirstRender: bool
    const mapAtFirstRender: bool

    constructor(hasOverlay: bool, hasMap: bool)
      ensures showCircle && zoomLevel == None && zoomLocation == None && fitted == []
      ensures cursor == None && tooltip == None && overlayLayers == None
      ensures overlayAtFirstRender == hasOverlay && mapAtFirstRender == hasMap
    {
      showCircle := true;
      zoomLevel := None;
      zoomLocation := None;
      fitted := [];
      cursor := None;
      tooltip := None;
      overlayLayers := None;
      overlayAtFirstRender := hasOverlay;
      mapAtFirstRender := hasMap;
    }

    /** `handleZoomOutEvent`: the zoom goes to the parent and the zoom
        location is cleared. */
    method HandleZoomOutEvent(zoom: real)
      modifies this`zoomLevel, this`zoomLocation
      ensures zoomLevel == Some(zoom) && zoomLocation == Some([])
    {
      zoomLevel := Some(zoom);
      zoomLocation := Some([]);
    }

    /** The `zoomend`/`dragend` handler (registered only with a map): zoomed
        in to 4 or more the circles are hidden; below that they are shown and
        the parent is told to zoom out. */
    method OnViewportChange(zoom: real)
      modifies this`showCircle, this`zoomLevel, this`zoomLocation
      ensures zoom >= ZoomLevelMargin ==>
        !showCircle && zoomLevel == old(zoomLevel) && zoomLocation == old(zoomLocation)
      ensures zoom < ZoomLevelMargin ==>
        showCircle && zoomLevel == Some(zoom) && zoomLocation == Some([])
    {
      if zoom >= ZoomLevelMargin {
        showCircle := false;
      } else {
        showCircle := true;
        HandleZoomOutEvent(zoom);
      }
    }

    /** `flyToBbox`, with the overlay and the map its closure sees: nothing
        without either, otherwise the box is fitted. */
    method FlyToBbox(hasOverlay: bool, hasMap: bool, bbox: seq<real>)
      modifies this`fitted
      ensures fitted == if hasOverlay && hasMap then old(fitted) + [FitBoxOf(bbox)] else old(fitted)
    {
      if !hasOverlay || !hasMap {
        return;
      }
      fitted := fitted + [FitBoxOf(bbox)];
    }

    /** `handleClickOnCircle`: hide the circles, then fly to the box. Being
        memoised with no dependencies it flies with the overlay and the map
        of the first render. */
    method HandleClickOnCircle(bbox: seq<real>)
      modifies this`showCircle, this`fitted
      ensures !showCircle
      ensures fitted == if overlayAtFirstRender && mapAtFirstRender
                        then old(fitted) + [FitBoxOf(bbox)] else old(fitted)
    {
      showCircle := false;
      FlyToBbox(overlayAtFirstRender, mapAtFirstRender, bbox);
    }

    /** `handleOnHoverOnCircle`: with a non-empty `itemId` the cursor becomes
        `pointer` and the tooltip the text after its last `-`; otherwise the
        cursor becomes `grab`. It writes to the overlay of the first render,
        so without one it throws (`ok` false) and changes nothing. */
    method HandleOnHoverOnCircle(itemId: Option<string>) returns (ok: bool)
      modifies this`cursor, this`tooltip
      ensures ok == overlayAtFirstRender
      ensures !ok ==> cursor == old(cursor) && tooltip == old(tooltip)
      ensures ok && itemId.Some? && itemId.value != "" ==>
        cursor == Some("pointer") && tooltip == Some(TooltipFor(itemId.value))
      ensures ok && (itemId.None? || itemId.value == "") ==>
        cursor == Some("grab") && tooltip == old(tooltip)
    {
      if !overlayAtFirstRender {
        return false;
      }
      if itemId.Some? && itemId.value != "" {
        var countryName := TooltipFor(itemId.value);
        cursor := Some("pointer");
        tooltip := Some(countryName);
      } else {
        cursor := Some("grab");
      }
      return true;
    }

    /** The effect on `[deckOverlay, circleLayer, rasterLayer]`: the overlay
        gets `[rasterLayer, circleLayer]` only when both layers exist; it
        throws (`ok` false) when they do but the overlay does not. */
    method PushLayers(hasOverlay: bool, rasterLayer: Option<DeckLayer>,
                      circleLayer: Option<AreaCircle.CircleLayer>) returns (ok: bool)
      modifies this`overlayLayers
      ensures ok <==> hasOverlay || rasterLayer.None? || circleLayer.None?
      ensures overlayLayers == if ok && rasterLayer.Some? && circleLayer.Some?
                               then Some([rasterLayer.value, DeckCircleLayer(circleLayer.value)])
                               else old(overlayLayers)
    {
      if rasterLayer.Some? && circleLayer.Some? {
        if !hasOverlay {
          return false;
        }
        overlayLayers := Some([rasterLayer.value, DeckCircleLayer(circleLayer.value)]);
      }
      return true;
    }
  }
}
