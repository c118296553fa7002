/** The viewport filter of `src/components/map/viewport/index.jsx`: the
    list of items in view is recomputed from the map bounds when the map is
    zoomed in far enough, and the parent is told to zoom out otherwise.
    `map.getZoom()`, `map.getBounds()` and the turf intersection test are
    parameters; the React state setters become the returned action. */
module Viewport {
  import opened Wrappers
  import opened Sequences
  import opened Geo
  import opened MapUtils

  /** What one run of a `handleViewportChange` asks of the parent. */
  datatype ViewportAction =
    | SetVisualizationLayers(items: seq<VizItem>)  // `setVisualizationLayers(...)`
    | ZoomOut(zoom: real)                           // `handleZoomOutEvent(zoom)`
    | NoAction

  /** `Object.values(filteredVizItems)`, or `[]` when the prop is absent. The
      dictionary is given as its entries in enumeration order. */
  function ItemList(filtered: Option<seq<(string, VizItem)>>): (r: seq<VizItem>)
    ensures filtered.None? ==> r == []
    ensures filtered.Some? ==>
      |r| == |filtered.value| && forall i :: 0 <= i < |r| ==> r[i] == filtered.value[i].1
  {
    match filtered
    case None => []
    case Some(entries) => seq(|entries|, i requires 0 <= i < |entries| => entries[i].1)
  }

  /** `findAllLayersInsideViewport`: the items whose `polygonGeometry`
      intersects the map bounds, in their original order. */
  function FindAllLayersInsideViewport(items: seq<VizItem>, bounds: Bounds,
                                       intersects: (Option<Geometry>, Bounds) -> bool): (r: seq<VizItem>)
    ensures forall it :: it in r <==> it in items && intersects(it.polygonGeometry, bounds)
    ensures SubsequenceOf(r, items)
  {
    Filter(items, (it: VizItem) => IsFeatureWithinBounds(it.polygonGeometry, bounds, intersects))
  }

  /** The effect on `[initialValues, fromSearch]`: it runs only with a map
      and a non-empty list, filters when zoomed in and not coming from a
      search, and asks the parent to zoom out in every other case. */
  function OnDataChange(hasMap: bool, items: seq<VizItem>, zoom: real, margin: real, fromSearch: bool,
                        bounds: Bounds, intersects: (Option<Geometry>, Bounds) -> bool): (a: ViewportAction)
    ensures !hasMap || |items| == 0 ==> a == NoAction
    ensures hasMap && |items| > 0 && zoom >= margin && !fromSearch ==>
      a == SetVisualizationLayers(FindAllLayersInsideViewport(items, bounds, intersects))
    ensures hasMap && |items| > 0 && (zoom < margin || fromSearch) ==> a == ZoomOut(zoom)
  {
    if !hasMap || |items| == 0 then NoAction
    else if zoom >= margin && !fromSearch then
      SetVisualizationLayers(FindAllLayersInsideViewport(items, bounds, intersects))
    else ZoomOut(zoom)
  }

  /** The `zoomend`/`dragend` handler: zoomed in, it filters unless the view
      came from a search (then it does nothing); zoomed out, it asks the
      parent to zoom out. The handler is only registered with a map. */
  function OnMapMove(items: seq<VizItem>, zoom: real, margin: real, fromSearch: bool,
                     bounds: Bounds, intersects: (Option<Geometry>, Bounds) -> bool): (a: ViewportAction)
    ensures zoom >= margin && !fromSearch ==>
      a == SetVisualizationLayers(FindAllLayersInsideViewport(items, bounds, intersects))
    ensures zoom >= margin && fromSearch ==> a == NoAction
    ensures zoom < margin ==> a == ZoomOut(zoom)
  {
    if zoom >= margin then
      if !fromSearch then SetVisualizationLayers(FindAllLayersInsideViewport(items, bounds, intersects))
      else NoAction
    else ZoomOut(zoom)
  }

  /** The two rules agree on a non-empty list except when a search put the
      view at high zoom: a data change then zooms out while a move of the map
      leaves everything alone. */
  lemma DataChangeVersusMove(items: seq<VizItem>, zoom: real, margin: real, fromSearch: bool,
                             bounds: Bounds, intersects: (Option<Geometry>, Bounds) -> bool)
    requires |items| > 0
    ensures (OnDataChange(true, items, zoom, margin, fromSearch, bounds, intersects)
             == OnMapMove(items, zoom, margin, fromSearch, bounds, intersects))
            <==> !(fromSearch && zoom >= margin)
  {
  }

  /** Whatever either rule hands to `setVisualizationLayers` is drawn from
      the item list and lies in view. */
  lemma FilteredItemsInView(hasMap: bool, items: seq<VizItem>, zoom: real, margin: real, fromSearch: bool,
                            bounds: Bounds, intersects: (Option<Geometry>, Bounds) -> bool)
    ensures var a := OnDataChange(hasMap, items, zoom, margin, fromSearch, bounds, intersects);
            a.SetVisualizationLayers? ==>
              forall it :: it in a.items ==> it in items && intersects(it.polygonGeometry, bounds)
    ensures var a := OnMapMove(items, zoom, margin, fromSearch, bounds, intersects);
            a.SetVisualizationLayers? ==>
              forall it :: it in a.items ==> it in items && intersects(it.polygonGeometry, bounds)
  {
  }
}
