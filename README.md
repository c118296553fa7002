# Mangrove map interface — a Dafny model of its layer bookkeeping

This project models the map logic of the mangrove / plume dashboard, a React
application over Mapbox GL and deck.gl. It does not model rendering. It models
the bookkeeping that decides which layers belong on the map, and the small
helpers and control state machines around it:

- the layer synchroniser: the `processLayers` diff between the `raster-*`
  layers on the map and the items in view, the per-layer handler registry,
  and the add and remove of an item's raster, outline and fill layers;
- the timeline playback buffer: the date→index map, the clipped look-ahead
  window of four items, the deferred hide of the previous frame, and
  teardown;
- the viewport filter and the zoom rules of the viewport component and the
  deck.gl layer manager;
- the bbox-area filters that split items between circles and markers;
- the layer-visibility toggle, the km/mi unit button and the
  measuring-mode button;
- the measuring helpers (anchor points, cursor, line and label);
- the search-key build and parse;
- the metadata and coverage transforms;
- the STAC and location helpers of the API service;
- the configuration merge and validation.

The Mapbox map is an abstract state held in the class `MapSurface.Map`:

- a map of sources;
- an ordered list of layers, each with an id, a kind, a layout
  `visibility` and a paint `line-width`;
- a set of `(event, layer, handler)` listeners;
- the style-loaded flag and the calls queued for `style.load`.

Its methods follow Mapbox GL's documented behaviour:

- `addSource` of an existing id throws (`ok` is false);
- `addLayer` of an existing id is refused;
- `removeLayer`, `setLayoutProperty` and `setPaintProperty` on a missing
  layer do nothing.

The sources and layers taken together also exist as a value,
`MapSurface.Surface`. The multi-step operations (adding a plume item's
layers, buffering and advancing the playback) are stated against functions on
it: each method's new surface is that function of the old one, and the lemmas
about the functions give the properties.

turf's intersection test and length are parameters, and so are moment's date
formatting, `fetch` and the build environment. Datetimes are integers.
Handlers are values naming what they do, with a stamp telling one effect run
from the next.

Each core file is one module:

| file | module |
|---|---|
| `mapLayer/index.jsx` | `MapLayer` |
| `utils/index.js` | `MapUtils` |
| `PlumeLayer.jsx` | `PlumeLayer` |
| `itemAnimation/index.jsx` | `ItemAnimation` |
| `viewport/index.jsx` | `Viewport` |
| `areaBasedCircle.jsx` | `AreaCircle` |
| `markerComponents.jsx` | `Markers` |
| `deckLayerManager.jsx` | `DeckLayerManager` |
| `layerVisibility.jsx` | `LayerVisibility` |
| `changeUnit.jsx` | `ChangeUnit` |
| `mapControls/measureDistance.jsx` | `MeasureControl` |
| `measurementLayer/helper/measureDistance.js` | `MeasureDistance` |
| `search/index.jsx` | `Search` |
| `dataTransform.ts` | `DataTransform` |
| `api.js` | `Api` |
| `config.ts` | `Config` |

`Wrappers`, `Sequences`, `Text`, `Geo` and `MapSurface` hold the shared types,
the string and list helpers, and the map abstraction.

The model follows the code where it departs from what its names and comments suggest:

- ids are read back with `split('-')[1]`;
- `removeLayers` deletes an item's layers before `removeEventListeners`
  looks for the fill layer, so `map.off` is never reached;
- the playback ids are `i + '-undefined'`;
- the last timeline index buffers nothing;
- `fetchAllFromSTACAPI` drops a collection that fits in one page (see
  Findings);
- the deck.gl callbacks are `useCallback(…, [])`, so they see the overlay
  and the map of the first render (`DeckLayers.overlayAtFirstRender`,
  `mapAtFirstRender`);
- `useAreaBasedCircle` accepts `handleOnHover` but never passes it to the
  layer, so the hover handler is modelled but nothing wires it;
- `getLocationForFeature` reads a `config` that `api.js` does not import,
  so anything past the lookup short-circuit rejects;
- an item without point metadata makes `reverseGeocoding` read
  `feature.properties` on `undefined` unless the location lookup is falsy or
  has a known entry under `undefined`; the throw rejects that item's
  `forEach` callback, so it gets no plume;
- with a single item, the playback's mount effect throws reading
  `vizItems[1]`;
- two ticks on the same date queue the frame on show for hiding.

## Model

| member | source | states |
|---|---|---|
| MapLayer.IdOfLayerName | src/components/map/mapLayer/index.jsx:208 | the id read from a layer name (its second `-` part) never contains `-` |
| MapLayer.IdOfRasterName | src/components/map/mapLayer/index.jsx:208 | `raster-<id>` gives back `<id>` exactly when `<id>` has no `-` |
| MapLayer.RasterLayerIds | src/components/map/mapLayer/index.jsx:202-209 | every id read is the id of some layer whose name contains `raster-`, and every such layer contributes its id |
| MapLayer.Dedup | src/components/map/mapLayer/index.jsx:207-209 | `[...new Set(xs)]` has the same members as `xs` and no repeats |
| MapLayer.LiveIds | src/components/map/mapLayer/index.jsx:207-222 | the live ids have no repeats |
| MapLayer.ToAdd | src/components/map/mapLayer/index.jsx:212-214 | keeps exactly the items whose id is not a live id, in their original order |
| MapLayer.ItemIds | src/components/map/mapLayer/index.jsx:210 | the set of the ids of the items in view |
| MapLayer.ToRemove | src/components/map/mapLayer/index.jsx:210-224 | keeps exactly the live ids that no item in view has, in live order |
| MapLayer.PresentItemIsLive | src/components/map/mapLayer/index.jsx:202-209 | an item without `-` in its id whose raster layer is present has its id among the live ids |
| MapLayer.NothingToAdd | src/components/map/mapLayer/index.jsx:212-220 | once every item in view has its raster layer, `toAdd` is empty |
| MapLayer.NothingToRemove | src/components/map/mapLayer/index.jsx:222-228 | once every raster layer belongs to an item in view, `toRemove` is empty |
| MapLayer.DiffIdempotent | src/components/map/mapLayer/index.jsx:202-228 | when the raster layers on the map are exactly those of the items in view (ids without `-`), both halves of the diff are empty |
| MapLayer.ToAddExactlyMissing | src/components/map/mapLayer/index.jsx:202-214 | an item is re-added exactly when its raster layer is missing |
| MapLayer.GetEventHandler | src/components/map/mapLayer/index.jsx:167-169 | a handler is found exactly when the layer and the event are registered, and it is the registered one |
| MapLayer.RegisterOverwrites | src/components/map/mapLayer/index.jsx:160-165 | a registration replaces the handler of that layer and event and leaves every other pair as it was |
| MapLayer.RegisteredListeners | src/components/map/mapLayer/index.jsx:175-187 | the listeners `removeEventListeners` would unbind: the registered click, mouseenter and mouseleave handlers of the fill layer |
| MapLayer.ItemHandlers | src/components/map/mapLayer/index.jsx:93-107 | the three handlers of one effect run: toggle, highlight and unhighlight of that item |
| MapLayer.ItemRegistryMatchesListeners | src/components/map/mapLayer/index.jsx:110-116 | after an item's effect, the registry holds exactly the listeners the effect bound on its fill layer |
| MapLayer.HoverThenLeave | src/components/map/mapLayer/index.jsx:81-106 | mouseenter (width 5) then mouseleave (width 2) gives back the outline as the effect created it |
| MapLayer.RasterStep | src/components/map/mapLayer/index.jsx:69-79 | the map's sources and layers become `RasterAdded` of the old ones with the item's `RasterSourceFor(style, item, rasterApiUrl)`: the guarded add of source and hidden layer `raster-<id>`, touching nothing else |
| MapLayer.OutlineStep | src/components/map/mapLayer/index.jsx:81-87 | the sources and layers become `OutlineAdded` of the old ones: source `polygon-<id>` holding the polygon geometry and layer `OutlineLayerFor(p, p, 2)`, added under the guard; it fails exactly when that source existed without its layer |
| MapLayer.FillStep | src/components/map/mapLayer/index.jsx:89 | the sources and layers become `FillAdded` of the old ones: source `fill-<id>` holding the item geometry and layer `FillLayerFor(f, f)`, added under the guard; it fails exactly when that source existed without its layer |
| MapLayer.AddItemLayers | src/components/map/mapLayer/index.jsx:60-90 | the sources and layers become `ItemSurface` of the old ones (raster, width-2 outline and fill adds, ending at the first that throws, then the raster shown); `ok` is `ItemCompletes`, false exactly when the outline's or fill's source existed without its layer; other ids' layers are untouched |
| MapLayer.ItemCompletesIff | src/components/map/mapLayer/index.jsx:69-89 | the effect gets past both GeoJSON adds exactly when neither `polygon-<id>` nor `fill-<id>` has a source without its layer on the map it starts from |
| MapLayer.ItemAddsLayers | src/components/map/mapLayer/index.jsx:69-89 | the three adds keep the old layers below and put at most three on top, each the hidden raster, the width-2 outline or the fill layer of the item |
| MapLayer.ItemSurfaceSources | src/components/map/mapLayer/index.jsx:69-89 | every old source is kept; new sources are the item's; a fresh `raster-<id>` gets the item's raster source, a fresh `polygon-<id>` its polygon, and, unless the outline threw, a fresh `fill-<id>` its geometry |
| MapLayer.ItemSurfaceLayers | src/components/map/mapLayer/index.jsx:69-90 | old layers stay in place, those of `raster-<id>` made visible when the effect completes; at most three go on top: the raster (visible when completed), `OutlineLayerFor(p, p, 2)` or `FillLayerFor(f, f)` |
| MapLayer.ItemSurfaceSameOutside | src/components/map/mapLayer/index.jsx:69-90 | no layer of an id other than the item's three changes |
| MapLayer.ItemSurfacePresence | src/components/map/mapLayer/index.jsx:69-90 | afterwards each of the item's ids has a layer exactly when it had one or its source was fresh (the fill's also needs the outline not to throw); other ids as before; on completion every raster layer of the item is visible |
| MapLayer.ItemSurfaceFreshLayers | src/components/map/mapLayer/index.jsx:81-89 | an outline id without a layer before ends up with only `OutlineLayerFor(p, p, 2)` layers (width 2), a fill id likewise with `FillLayerFor(f, f)` |
| MapLayer.FreshItemSurface | src/components/map/mapLayer/index.jsx:69-90 | on a map with none of the item's sources or layers the effect completes, adds the three sources, and puts the visible raster, the width-2 outline and the fill on top in that order |
| MapUtils.AddedFacts | src/components/map/utils/index.js:38-182 | the guarded add shared by the three helpers: sources grow by the id keeping old values, a fresh id gets the new source, layers only grow on top by at most the new layer, and a layer id is present afterwards exactly when it was or the source id was fresh |
| MapLayer.VisualizationLayers.constructor | src/components/map/mapLayer/index.jsx:156-158 | the registry and `layersToAdd` start empty |
| MapLayer.VisualizationLayers.RegisterEventHandler | src/components/map/mapLayer/index.jsx:160-165 | the registry becomes `Registered(old, layer, event, handler)` |
| MapLayer.VisualizationLayers.ClearEventHandlers | src/components/map/mapLayer/index.jsx:171-173 | the layer's entry is deleted and nothing else changes |
| MapLayer.VisualizationLayers.RemoveEventListeners | src/components/map/mapLayer/index.jsx:175-190 | registered listeners are unbound only while the fill layer exists; the `fill-<id>` entry is removed in every case and every other entry kept |
| MapLayer.VisualizationLayers.RemoveItem | src/components/map/mapLayer/index.jsx:193-196 | removing an item deletes its layers and sources and its registry entry, but unbinds no listener |
| MapLayer.VisualizationLayers.RemoveLayers | src/components/map/mapLayer/index.jsx:192-197 | for every id removed: its layers, sources and `fill-` entry go, and the listeners stay as they were |
| MapLayer.VisualizationLayers.ProcessLayers | src/components/map/mapLayer/index.jsx:199-246 | with a map: `layersToAdd` is `ToAdd`, the `ToRemove` ids lose their layers, sources and entries, and nothing else changes; without a map nothing happens |
| MapLayer.VisualizationLayers.AddVisualization | src/components/map/mapLayer/index.jsx:50-117 | does nothing without a map or id; otherwise the sources and layers become `ItemSurface` of the old ones, and, unless an add threw, the three handlers are bound and registered under `fill-<id>`; the style state is untouched |
| MapLayer.VisualizationLayers.BindHandlers | src/components/map/mapLayer/index.jsx:110-116 | three `map.on` calls on the fill layer, then the same three handlers registered |
| MapLayer.VisualizationLayers.FireHandler | src/components/map/mapLayer/index.jsx:93-107 | click toggles the raster (through `handleClickedOnLayer`); mouseenter sets `polygon-<id>` to width 5, mouseleave to 2; sources, listeners and style state are untouched |
| MapLayer.StaleListenersSurvive | src/components/map/mapLayer/index.jsx:50-197 | removing an item and running its effect again leaves the listeners of both runs bound, while the registry holds only the new ones, so the old click handler can never be unbound |
| MapLayer.HoverAfterAdd | src/components/map/mapLayer/index.jsx:60-107 | adding an item to a map without its layers and then hovering and leaving its fill leaves exactly the visible raster, the width-2 outline and the fill on top, and the three listeners bound |
| MapUtils.GetLayerId | src/components/map/utils/index.js:11-24 | `getLayerId` and `getSourceId` give the same string for equal arguments |
| MapUtils.RasterSourceFor | src/components/map/utils/index.js:52-73 | a raster source of tile size 256 whose bounds are `feature.bbox`, with the templated tile URL |
| MapUtils.RasterLayerFor | src/components/map/utils/index.js:75-83 | the raster layer is created with visibility `none` |
| MapUtils.AddSourceLayerToMap | src/components/map/utils/index.js:38-87 | a no-op without a map or when source and layer both exist; a throwing `addSource` is caught, so nothing is added |
| MapUtils.OutlineLayerFor | src/components/map/utils/index.js:137-146 | a line layer with the given width |
| MapUtils.FillLayerFor | src/components/map/utils/index.js:174-182 | a fill layer without layout |
| MapUtils.AddGeoJsonLayer | src/components/map/utils/index.js:127-182 | the guarded source-then-layer add shared by the two polygon helpers; it fails exactly when the source existed without its layer |
| MapUtils.AddSourcePolygonToMap | src/components/map/utils/index.js:120-147 | skips without a map or when source and layer both exist; otherwise adds the source and a line layer of the given width |
| MapUtils.AddFillPolygonToMap | src/components/map/utils/index.js:156-183 | the same guard; otherwise adds the source and a fill layer |
| MapUtils.FirstRasterLayer | src/components/map/utils/index.js:227-233 | the position of the first layer whose id starts with `raster-`, or none when no layer does |
| MapUtils.CoverageLayerFor | src/components/map/utils/index.js:215-224 | the coverage fill layer |
| MapUtils.AddCoveragePolygon | src/components/map/utils/index.js:194-237 | before the style loads, only queues itself; afterwards adds the source only if absent and the layer only if absent, moving a new layer below the first raster |
| MapUtils.CoverageBelowFirstRaster | src/components/map/utils/index.js:226-235 | the new coverage layer sits directly before the first `raster-` layer, and no layer is lost or duplicated |
| PlumeLayer.Flipped | src/pages/dashboard/helper/PlumeLayer.jsx:53-57 | `none` and `visible` swap; any other value gives no change |
| PlumeLayer.HandleClickedOnLayer | src/pages/dashboard/helper/PlumeLayer.jsx:44-60 | the layers become `ClickedLayers`; sources and listeners are unchanged |
| PlumeLayer.ClickFacts | src/pages/dashboard/helper/PlumeLayer.jsx:45-58 | no change for an empty id or a missing raster; otherwise only `raster-<id>`'s visibility changes, to the other of the two |
| PlumeLayer.ClickTwiceRestores | src/pages/dashboard/helper/PlumeLayer.jsx:44-60 | two clicks give back the original layers |
| PlumeLayer.ItemLayerIds | src/pages/dashboard/helper/PlumeLayer.jsx:66-71 | the raster, polygon and fill ids, which are also the source ids |
| PlumeLayer.RemoveLayerIfExists | src/pages/dashboard/helper/PlumeLayer.jsx:73 | a guarded `removeLayer` removes the id if present |
| PlumeLayer.RemoveSourceIfExists | src/pages/dashboard/helper/PlumeLayer.jsx:77 | a guarded `removeSource` removes the id if present |
| PlumeLayer.HandleRemoveLayer | src/pages/dashboard/helper/PlumeLayer.jsx:65-81 | the item's three layers and three sources are gone, no layer of the item survives, and every layer of any other id survives in its old order |
| PlumeLayer.HighlightedOutlines | src/pages/dashboard/helper/PlumeLayer.jsx:103-109 | exactly the ids of the `polygon-` layers of width 5 |
| PlumeLayer.Highlight | src/pages/dashboard/helper/PlumeLayer.jsx:89-101 | the layers become `HighlightedLayers` |
| PlumeLayer.Unhighlight | src/pages/dashboard/helper/PlumeLayer.jsx:102-116 | the layers become `UnhighlightedLayers` |
| PlumeLayer.HighlightEffect | src/pages/dashboard/helper/PlumeLayer.jsx:86-117 | nothing without a map; a truthy id highlights that plume, a falsy one resets every width-5 outline |
| PlumeLayer.UnhighlightFacts | src/pages/dashboard/helper/PlumeLayer.jsx:102-116 | no width-5 outline is left; only the reset outlines change, to width 2; a second reset changes nothing |
| PlumeLayer.HighlightFacts | src/pages/dashboard/helper/PlumeLayer.jsx:89-101 | an existing outline ends with width 5; an existing raster sits directly below it; ids stay unique and none is lost |
| ItemAnimation.PlaybackId | src/components/map/itemAnimation/index.jsx:161-188 | the id is `getLayerId(i)` with one argument, equal to the source id |
| ItemAnimation.PlaybackIdInjective | src/components/map/itemAnimation/index.jsx:161-188 | distinct indices give distinct ids |
| ItemAnimation.DateIndexOf | src/components/map/itemAnimation/index.jsx:39-44 | every key sends to an index in range that has that datetime |
| ItemAnimation.DateIndexLastWins | src/components/map/itemAnimation/index.jsx:40-44 | every datetime is a key, and it sends to the last index having it |
| ItemAnimation.DateIndexKeys | src/components/map/itemAnimation/index.jsx:39-44 | the keys are exactly the items' datetimes |
| ItemAnimation.BuildDateIndex | src/components/map/itemAnimation/index.jsx:39-44 | the loop builds `DateIndexOf(items)` |
| ItemAnimation.Window | src/components/map/itemAnimation/index.jsx:178-186 | the indices walked: none when `index >= n-1`, otherwise `[index, min(index+k, n))` |
| ItemAnimation.AddRaster | src/components/map/itemAnimation/index.jsx:190-199 | the id becomes a source, old sources are kept, a fresh id gets the item's raster source and a layer, a taken source id adds no layer, and only that id's hidden raster layer goes on top |
| ItemAnimation.BufferOne | src/components/map/itemAnimation/index.jsx:189-199 | the map's sources and layers become `AddRaster` of the old ones; listeners and queued calls are kept |
| ItemAnimation.StepMillis | src/components/map/itemAnimation/index.jsx:52-61 | the step is a whole number of minutes, on the side of zero and less than a minute away from the gap, so truncated toward zero |
| ItemAnimation.StepMillisUnique | src/components/map/itemAnimation/index.jsx:52-61 | those conditions determine the step |
| ItemAnimation.RemoveAllLayers | src/components/map/itemAnimation/index.jsx:103-105 | every buffered layer that exists is removed |
| ItemAnimation.RemoveAllSources | src/components/map/itemAnimation/index.jsx:106-108 | every buffered source that exists is removed |
| ItemAnimation.NotInEarlierIds | src/components/map/itemAnimation/index.jsx:186-201 | an index's id is not among the ids of the indices before it, so the `has` test only sees ids buffered before the call |
| ItemAnimation.BufferedSurfaceGrows | src/components/map/itemAnimation/index.jsx:186-203 | the loop adds a source for exactly the range's ids not yet buffered and keeps every old source |
| ItemAnimation.BufferedSurfaceOnTop | src/components/map/itemAnimation/index.jsx:186-203 | the loop only puts layers on top of the old ones |
| ItemAnimation.BufferedSurfaceNewLayers | src/components/map/itemAnimation/index.jsx:186-203 | every layer the loop adds is the hidden raster layer of a range id not yet buffered |
| ItemAnimation.BufferedSurfaceAdds | src/components/map/itemAnimation/index.jsx:186-203 | a range id neither buffered nor a source gets its item's raster source and a layer |
| ItemAnimation.BufferRange | src/components/map/itemAnimation/index.jsx:186-203 | the buffer grows by the ids of the range, and the map's sources and layers become `BufferedSurface` of the old ones |
| ItemAnimation.WindowRange | src/components/map/itemAnimation/index.jsx:178-185 | the window is empty from the last index on, otherwise the range the loop walks |
| ItemAnimation.WindowSurfaceGrows | src/components/map/itemAnimation/index.jsx:166-205 | buffering a window adds a source for exactly its ids not yet buffered, keeps every old source and only puts layers on top |
| ItemAnimation.WindowSurfaceNewLayers | src/components/map/itemAnimation/index.jsx:166-205 | every layer a window adds is the hidden raster layer of one of its ids not yet buffered |
| ItemAnimation.WindowSurfaceAdds | src/components/map/itemAnimation/index.jsx:166-205 | a window id neither buffered nor a source gets its item's raster source and a layer |
| ItemAnimation.TickShowsCurrent | src/components/map/itemAnimation/index.jsx:139-218 | after a tick every layer of the current id is visible, and one exists when the id had a layer or this tick buffered it; old layers of other ids are unchanged; the last index buffers nothing |
| ItemAnimation.Playback.constructor | src/components/map/itemAnimation/index.jsx:46-125 | empty buffers, `prev` null, nothing pending |
| ItemAnimation.Playback.Start | src/components/map/itemAnimation/index.jsx:35-99 | without a map or items nothing happens; with one item reading `vizItems[1]` throws (`ok` false) and nothing changes; otherwise builds the date index and the step, and attaches the timeline with empty buffers |
| ItemAnimation.Playback.BufferSourceLayers | src/components/map/itemAnimation/index.jsx:166-205 | both buffer sets grow by exactly the window's ids, never past n, and the map's sources and layers become `WindowSurface` of the old ones |
| ItemAnimation.Playback.Tick | src/components/map/itemAnimation/index.jsx:139-218 | an unknown date changes nothing; otherwise the map's sources and layers become `TickSurface` of the old ones (window buffered, current layer visible), the old `prev` is queued for hiding and the current id becomes `prev` |
| ItemAnimation.Playback.FireHide | src/components/map/itemAnimation/index.jsx:214-217 | the oldest pending hide sets its layer, if any, to `none` |
| ItemAnimation.Playback.Teardown | src/components/map/itemAnimation/index.jsx:101-115 | removes every buffered layer and source, empties both sets, resets `prev` and detaches the control |
| ItemAnimation.WindowBounds | src/components/map/itemAnimation/index.jsx:145-186 | with k = 4 a tick buffers at most four indices, all in `[index, n)`, and none at the last index |
| ItemAnimation.SameDateTwiceHidesCurrent | src/components/map/itemAnimation/index.jsx:159-218 | after two ticks on one date and every pending hide, the current frame is hidden although `prev` still names it |
| Viewport.ItemList | src/components/map/viewport/index.jsx:30-37 | the values of `filteredVizItems`, or empty when it is absent |
| Viewport.FindAllLayersInsideViewport | src/components/map/viewport/index.jsx:45-51 | keeps exactly the items whose `polygonGeometry` intersects the bounds, in input order |
| Viewport.OnDataChange | src/components/map/viewport/index.jsx:53-69 | nothing without a map or items; filters when zoomed in and not from search; otherwise zooms out |
| Viewport.OnMapMove | src/components/map/viewport/index.jsx:71-93 | zoomed in: filters unless from search, which does nothing; zoomed out: zooms out |
| Viewport.DataChangeVersusMove | src/components/map/viewport/index.jsx:53-93 | on a non-empty list the two rules agree exactly when the view is not a zoomed-in search result |
| Viewport.FilteredItemsInView | src/components/map/viewport/index.jsx:45-93 | whatever either rule hands on is a subsequence of the items, all in view |
| AreaCircle.BboxArea | src/components/map/deckgl/areaBasedCircle.jsx:6-10 | the area is never negative, and 0 for a missing box or one without four components |
| AreaCircle.BboxAreaZero | src/components/map/deckgl/areaBasedCircle.jsx:6-10 | the area is 0 exactly for a missing box, one without four components, or a flat one |
| AreaCircle.FilterByBboxArea | src/components/map/deckgl/areaBasedCircle.jsx:12-18 | empty for missing data; otherwise keeps, in order, area below the threshold for `lt` and above it for any other op |
| AreaCircle.RadiusOfCircle | src/components/map/deckgl/areaBasedCircle.jsx:19-34 | 1500 m when min and max weight agree; otherwise between 1500 and 3000 m |
| AreaCircle.CircleLayerFor | src/components/map/deckgl/areaBasedCircle.jsx:36-77 | null without `stacData`; otherwise the layer of the items of area above 0 |
| AreaCircle.CirclesHaveProperBoxes | src/components/map/deckgl/areaBasedCircle.jsx:4-46 | every circle has a four-component box that is not flat |
| AreaCircle.OnPick | src/components/map/deckgl/areaBasedCircle.jsx:56-60 | the bbox is handed on exactly when the picked object, its bbox and the callback exist |
| Markers.BboxArea | src/components/map/deckgl/markerComponents.jsx:36-40 | never negative, and 0 for a missing box or one without four components |
| Markers.FilterByBboxArea | src/components/map/deckgl/markerComponents.jsx:49-54 | keeps, in order, area below the threshold for `lt` and above it otherwise |
| Markers.FiltersAgree | src/components/map/deckgl/markerComponents.jsx:36-54 | where there is data, this file's filter and the circle file's filter agree |
| Markers.MarkerLayerFor | src/components/map/deckgl/markerComponents.jsx:56-91 | null without `stacData`; otherwise the layer of the items of area below 10 |
| Markers.MarkersAndCirclesCoverItems | src/components/map/deckgl/markerComponents.jsx:29-66 | every item is a marker or a circle; area 0 means marker only; area 10 or more means circle only |
| Markers.OnMarkerClick | src/components/map/deckgl/markerComponents.jsx:82-87 | the bbox is handed on exactly when the callback, the object and its bbox exist |
| DeckLayerManager.FitBoxOf | src/components/map/deckgl/deckLayerManager.jsx:50 | the box `[[b0,b1],[b2,b3]]`, with `undefined` past the end |
| DeckLayerManager.CircleClickFitsItsBox | src/components/map/deckgl/deckLayerManager.jsx:48-61 | a clicked circle fits the map to the two defined corners of its own box |
| DeckLayerManager.TooltipFor | src/components/map/deckgl/deckLayerManager.jsx:65-73 | the tooltip is a suffix of the id without `-`, and the whole id when it has none |
| DeckLayerManager.DeckLayers.constructor | src/components/map/deckgl/deckLayerManager.jsx:15-17 | circles shown; nothing fitted, no cursor, tooltip or layers yet |
| DeckLayerManager.DeckLayers.HandleZoomOutEvent | src/components/map/deckgl/deckLayerManager.jsx:19-22 | zoom level becomes `zoom` and zoom location `[]` |
| DeckLayerManager.DeckLayers.OnViewportChange | src/components/map/deckgl/deckLayerManager.jsx:26-34 | zoom of 4 or more hides the circles; below 4 shows them and zooms out |
| DeckLayerManager.DeckLayers.FlyToBbox | src/components/map/deckgl/deckLayerManager.jsx:48-56 | fits `FitBoxOf(bbox)` only with an overlay and a map |
| DeckLayerManager.DeckLayers.HandleClickOnCircle | src/components/map/deckgl/deckLayerManager.jsx:58-61 | hides the circles, then flies to the box with the first render's overlay and map |
| DeckLayerManager.DeckLayers.HandleOnHoverOnCircle | src/components/map/deckgl/deckLayerManager.jsx:63-83 | with an `itemId`: cursor `pointer` and tooltip the text after the last `-`; without one: cursor `grab`; throws without the first render's overlay |
| DeckLayerManager.DeckLayers.PushLayers | src/components/map/deckgl/deckLayerManager.jsx:94-99 | the layers become `[raster, circle]` only when both exist |
| LayerVisibility.HiddenLayers | src/components/map/mapControls/layerVisibility.jsx:31-38 | recorded layers are set to `none`, all others untouched |
| LayerVisibility.Restored | src/components/map/mapControls/layerVisibility.jsx:42-48 | every recorded id gets its recorded visibility back, all others untouched |
| LayerVisibility.SavedVisibilityFacts | src/components/map/mapControls/layerVisibility.jsx:29-38 | the record holds exactly the `raster-` layers with a layout, each with its visibility before hiding |
| LayerVisibility.HideThenShow | src/components/map/mapControls/layerVisibility.jsx:29-48 | hiding then showing gives back the layer list as it was |
| LayerVisibility.VisibilityToggle.constructor | src/components/map/mapControls/layerVisibility.jsx:21-22 | starts visible with an empty record |
| LayerVisibility.VisibilityToggle.HideRasters | src/components/map/mapControls/layerVisibility.jsx:26-38 | resets the record, fills it from the layers and hides the recorded ones |
| LayerVisibility.VisibilityToggle.ShowRasters | src/components/map/mapControls/layerVisibility.jsx:39-49 | restores every recorded visibility and touches nothing else |
| LayerVisibility.VisibilityToggle.ToggleLayers | src/components/map/mapControls/layerVisibility.jsx:24-52 | nothing without a map; otherwise hides or shows, flips `isVisible` and passes the new value to the callback |
| ChangeUnit.NextUnit | src/components/map/mapControls/changeUnit.jsx:62 | `km` becomes `mi`, anything else `km` |
| ChangeUnit.ClickTwiceRestores | src/components/map/mapControls/changeUnit.jsx:62 | two clicks restore the unit exactly when it is `km` or `mi` |
| ChangeUnit.ChangeUnitControl.constructor | src/components/map/mapControls/changeUnit.jsx:48-55 | unmounted, with no map, container or root, and the initial unit |
| ChangeUnit.ChangeUnitControl.UpdateUI | src/components/map/mapControls/changeUnit.jsx:69-79 | renders the unit only when mounted with a root |
| ChangeUnit.ChangeUnitControl.OnClick | src/components/map/mapControls/changeUnit.jsx:60-65 | nothing unless mounted with a map; otherwise flips the unit and hands the new one to the parent |
| ChangeUnit.ChangeUnitControl.OnAdd | src/components/map/mapControls/changeUnit.jsx:87-105 | keeps the map, creates container and root, and mounts |
| ChangeUnit.ChangeUnitControl.OnRemove | src/components/map/mapControls/changeUnit.jsx:110-128 | only schedules the clean-up |
| ChangeUnit.ChangeUnitControl.FireRemove | src/components/map/mapControls/changeUnit.jsx:110-128 | the scheduled clean-up unmounts and clears root, map and container |
| MeasureControl.MeasureDistanceControl.constructor | src/components/map/mapControls/measureDistance.jsx:45-52 | `icon` is the initial measure mode; unmounted, with no map |
| MeasureControl.MeasureDistanceControl.UpdateUI | src/components/map/mapControls/measureDistance.jsx:66-76 | renders the icon only when mounted with a root |
| MeasureControl.MeasureDistanceControl.HandleClick | src/components/map/mapControls/measureDistance.jsx:57-62 | nothing unless mounted with a map; otherwise calls the parent and flips `icon` |
| MeasureControl.MeasureDistanceControl.OnAdd | src/components/map/mapControls/measureDistance.jsx:85-101 | keeps the map, creates container and root, and mounts |
| MeasureControl.MeasureDistanceControl.OnRemove | src/components/map/mapControls/measureDistance.jsx:106-123 | only schedules the clean-up |
| MeasureControl.MeasureDistanceControl.FireRemove | src/components/map/mapControls/measureDistance.jsx:106-123 | the scheduled clean-up unmounts and clears root, map and container |
| MeasureDistance.TotalPoints | src/components/map/measurementLayer/helper/measureDistance.js:87-89 | undefined without a collection; otherwise exactly its Point features |
| MeasureDistance.ChangeCursor | src/components/map/measurementLayer/helper/measureDistance.js:86-94 | `crosshair` exactly when measuring with fewer than two points, `pointer` otherwise |
| MeasureDistance.FindMeasurementAnchor | src/components/map/measurementLayer/helper/measureDistance.js:115-155 | a hit removes every feature with the hit id; a miss with no points gives one new point at the click; a miss with points gives an empty collection |
| MeasureDistance.MissedClickLeavesAtMostOnePoint | src/components/map/measurementLayer/helper/measureDistance.js:135-154 | a click that hits nothing leaves at most one point |
| MeasureDistance.AddMeasurementSource | src/components/map/measurementLayer/helper/measureDistance.js:164-191 | nothing without a map or when any of the three sources exists; otherwise adds all three |
| MeasureDistance.AddMeasurementLayer | src/components/map/measurementLayer/helper/measureDistance.js:197-209 | nothing without a map or when any of the three layers exists; otherwise adds point, label and then line |
| MeasureDistance.RemoveMeasurementLayer | src/components/map/measurementLayer/helper/measureDistance.js:216-222 | removes the measurement layers that exist and nothing else |
| MeasureDistance.LabelUnit | src/components/map/measurementLayer/helper/measureDistance.js:252 | ` miles` for `mi`, ` km` otherwise |
| MeasureDistance.CreateMeasuringLine | src/components/map/measurementLayer/helper/measureDistance.js:243-273 | the line runs from the anchor to the pointer, the label from the pointer to the anchor, and the description is the length, a space and the unit text |
| Search.IdString | src/components/method/search/index.jsx:29 | the id with every `_` replaced by `-`, so it has no `_` |
| Search.OnOptionClicked | src/components/method/search/index.jsx:65-74 | nothing for an empty pick; otherwise sets `fromSearch` and then selects the fourth `_` part with `-` turned back to `_`; a shorter key throws |
| Search.OnInputTextChange | src/components/method/search/index.jsx:53-63 | resets `fromSearch` exactly for empty text; always ends by setting the options |
| Search.SearchKeySegments | src/components/method/search/index.jsx:26-36 | for a location of three comma parts without `_`, the key splits into the three reversed, trimmed parts and the id string |
| Search.LocationPartsLackUnderscore | src/components/method/search/index.jsx:30-34 | no trimmed part of a location without `_` contains `_` |
| Search.SearchRoundTrip | src/components/method/search/index.jsx:26-73 | picking such an item's key selects its id with `_`→`-`→`_`, which is the id exactly when it has no `-` |
| Search.MissingLocationThrows | src/components/method/search/index.jsx:30-70 | an item without a location has a key too short to parse, so picking it throws |
| DataTransform.MetadataId | src/utils/dataTransform.ts:91-94 | the id has no `/` and no `.` |
| DataTransform.MetadataIdOfPath | src/utils/dataTransform.ts:91-94 | for `<dir>/<name>.<ext>` the id is `name` |
| DataTransform.LookupOf | src/utils/dataTransform.ts:90-101 | every entry is a feature of the kind filed under its own id |
| DataTransform.LookupLastWins | src/utils/dataTransform.ts:95-100 | a feature is filed under its id unless a later one of the kind has the same id |
| DataTransform.LookupKeys | src/utils/dataTransform.ts:90-101 | the keys are exactly the ids of the features of the kind |
| DataTransform.BuildLookups | src/utils/dataTransform.ts:87-101 | the loop builds the polygon lookup and the point lookup |
| DataTransform.SortByDatetime | src/utils/dataTransform.ts:102-106 | a permutation of the items, ascending by datetime |
| DataTransform.LatestPlume | src/utils/dataTransform.ts:107 | the last sorted item, undefined for none |
| DataTransform.LatestIsNewest | src/utils/dataTransform.ts:102-107 | the latest plume is one of the items and none is later |
| DataTransform.Coordinates | src/utils/dataTransform.ts:139-146 | `lon` and `lat` are the point's coordinates when it is a Point, undefined otherwise |
| DataTransform.PlumeFor | src/utils/dataTransform.ts:110-163 | the plume has the item's id, box and datetime, the point's coordinates, and each geometry exactly when its lookup has the id |
| DataTransform.ReverseGeocoding | src/utils/dataTransform.ts:41-68 | `''` for a falsy lookup; a known lookup entry as is; a throw when the entry is missing or `unknown` and there is no point feature; `''` without an API key; otherwise the endpoint's answer, with `unknown` for a failed request |
| DataTransform.PointMetadataGeocodes | src/utils/dataTransform.ts:46-67 | an item with point metadata never makes geocoding throw |
| DataTransform.MissingPointThrows | src/utils/dataTransform.ts:46-52 | an item without point metadata throws exactly when the lookup is truthy and has no known entry under `undefined` |
| DataTransform.PlumesOf | src/utils/dataTransform.ts:109-164 | keyed by exactly the ids of the items whose geocoding does not throw, each plume under its own id with the geocoded location |
| DataTransform.FalsyLookupStoresAll | src/utils/dataTransform.ts:47-164 | with a falsy location lookup every item gets a plume |
| DataTransform.ItemWithoutPointHasNoPlume | src/utils/dataTransform.ts:46-147 | an item without point metadata, under a truthy lookup with no known `undefined` entry, gets no plume |
| DataTransform.TransformMetadata | src/utils/dataTransform.ts:79-169 | the plumes of the sorted items that geocode, and the latest plume |
| DataTransform.BuildPlumes | src/utils/dataTransform.ts:110-164 | the loop stores `PlumesOf` the sorted items: a plume exactly for each item whose geocoding does not throw |
| DataTransform.PlumesComeFromItems | src/utils/dataTransform.ts:110-147 | every plume is that of a STAC item with its own id, whose geocoding succeeded, carrying that location |
| Sequences.SortBy | src/utils/dataTransform.ts:102-106 | a permutation of the input, ascending by the key |
| Sequences.SortByStable | src/utils/dataTransform.ts:102-106 | the sort is stable: the elements of any one key keep their input order |
| DataTransform.LatestIsLastOfTies | src/utils/dataTransform.ts:102-107 | among the items with the latest datetime, the latest plume is the last in input order |
| DataTransform.Processed | src/utils/dataTransform.ts:191-201 | each processed feature keeps only `start_time`, `end_time` and the geometry |
| DataTransform.CreateIndexedCoverageData | src/utils/dataTransform.ts:189-220 | a `FeatureCollection` with as many features, a permutation of the processed ones, ascending by `start_time` with a missing time read as 0 |
| DataTransform.CoverageKeepsTimes | src/utils/dataTransform.ts:191-219 | each output feature carries the times of some input feature |
| Api.FetchData | src/services/api.js:3-14 | the body exactly for an ok response that parses; null otherwise |
| Api.GetResultArray | src/services/api.js:133-143 | `features` if present, else `collections`, else empty |
| Api.AddOffsetsToUrl | src/services/api.js:125-131 | `&limit=N` when the URL has `?`, `?limit=N` otherwise |
| Api.AddOffsetsQuery | src/services/api.js:125-131 | on a URL without a query, splitting at `?` gives back the URL and `limit=N` |
| Api.FetchAllDataStac | src/services/api.js:111-122 | one request with `limit` set to the match count; empty when it fails |
| Api.FetchAllFromStacApiAsWritten | src/services/api.js:88-109 | empty for a failed first request, undefined without `context`, a refetch when matched exceeds returned, and empty otherwise |
| Api.SinglePageIsDropped | src/services/api.js:101-105 | a collection whose single item fits the first page yields an empty list |
| Api.FetchAllFromStacApi | src/services/api.js:88-109 | as written, except that a complete first page returns its own results |
| Api.CompleteFirstPageIsKept | src/services/api.js:94-105 | the corrected version keeps a complete first page and agrees with the code whenever it refetches |
| Api.SubLocation | src/services/api.js:70-73 | city, else county, else `unknown`; never empty |
| Api.FormatLocation | src/services/api.js:70-79 | `sub + ", " + statePart + " " + country` |
| Api.FormatLocationShape | src/services/api.js:70-79 | the text starts with a non-empty place name and `, ` |
| Api.FetchLocationFromEndpoint | src/services/api.js:66-86 | `unknown` for a null body, no feature or no properties; otherwise the formatted location |
| Api.GetLocationForFeature | src/services/api.js:30-41 | a lookup string other than `unknown` is returned as is; anything else rejects |
| Config.EnvOr | src/context/configContext/config.ts:8-17 | the variable's value, or the empty string when it is unset |
| Config.DefaultConfig | src/context/configContext/config.ts:7-18 | the ten keys, each bound to its environment variable or `''` |
| Config.GetConfig | src/context/configContext/config.ts:25-32 | every key the user passes wins, even an undefined one; every other key keeps its default |
| Config.NoUserConfigIsDefault | src/context/configContext/config.ts:25-32 | `getConfig({})` is the default |
| Config.ValidateConfig | src/context/configContext/config.ts:44-67 | the required fields that are undefined, null or `''`, in listed order; valid exactly when there is none |
| Config.OptionalFieldsNeverReported | src/context/configContext/config.ts:47-55 | `basemapStyle`, `latlonEndpoint` and `rasterApiUrl` are never reported |
| Config.DefaultsValidIff | src/context/configContext/config.ts:7-67 | without user config, valid exactly when the environment variables behind the seven required fields are set and non-empty |
| Config.UndefinedOverrideHidesDefault | src/context/configContext/config.ts:25-62 | a required key passed as undefined is reported missing whatever the environment says |

## Left out

- React rendering, hook scheduling and the DOM are not modelled. An effect is one method call, and a state setter is a field assignment.
- Mapbox GL, deck.gl and turf internals are outside the model. Intersection, line length and coordinate rounding are parameters.
- moment's formatting is not modelled: the formatted datetime key is the integer datetime itself.
- Real time is not modelled. The 900 ms hide of the playback and the deferred clean-up in the controls' `onRemove` are queued steps, run by `FireHide` and `FireRemove`.
- Floating-point arithmetic is not modelled. That covers the log scaling in `getRadiusOfCircle`, which is a `scale` in [0, 1] given as a parameter; `toFixed(2)`, which is `lengthText`, a parameter; and d3 colour scales.
- `roundCoordinates` in `dataTransform.ts` rewrites geometry in place with floating-point rounding. It is a parameter `round`.
- DataTransform.TransformMetadata: the plumes are filled inside `forEach(async …)`, so the source may return before every plume is stored. The model returns the completed map, in which an item whose `reverseGeocoding` throws has no plume, since its callback rejects before `plumes[id]` is set.
- The geocoding endpoint's answer, and whether an API key is configured, are parameters (`Geocoder`). The endpoint URL built from the coordinates, the configured endpoint and the warning logged without a key are not modelled. Every other `fetch` is I/O too: its answer is an input, and its logging is dropped.
- `ZOOM_LEVEL_MARGIN`, used by the viewport component, comes from a constants module that is not part of this model. It is a parameter `margin`.
- `LayerVisibilityControl`, the Mapbox control class that mounts the button, is not modelled. It is wiring with no state of its own beyond a root.
- `cleanMeasurementControlLayers` and `removeMeasurementSource` are not modelled. They reset source data, which the model does not track.
- The module-level `linestring` that `createMeasuringLine` mutates is not modelled. Only the returned line and label are.
- The raster tile resolution and cache of `rasterLayer.jsx` are not modelled. `useDeckRasterLayer` is a layer value handed to `PushLayers`.
- The `TrieSearch` prefix search is not modelled. Its recommendations are a parameter.
- `fetchCollectionMetadata` and `getCoverageData` are not modelled. They are plain `fetchData` calls.
- Paint properties other than `line-width` are dropped, including colours, opacities and `fill-opacity` 0. So are tile sizes on layers and the `properties` object of features.
- AreaCircle.RadiusOfCircle: the log scaling is abstracted. Only the constant case and the range are stated.
- Text.IsSpace: it recognises the ASCII whitespace, no-break space and byte-order mark that `trim` strips, but not the other Unicode space separators and line terminators (U+1680, U+2000–U+200A, U+2028, U+2029, U+202F, U+205F, U+3000).
- MeasureDistance.AnchorCoordinates: only a `Point` first feature yields coordinates; for another geometry the model gives none, where the source reads that geometry's `coordinates` array as the anchor anyway.
- MapSurface.Map.listeners: a set, whereas Mapbox keeps every layer-bound `map.on` call as its own entry in a list, so binding the same handler twice counts once in the model. Handlers of different effect runs differ in their `stamp`, so they stay apart.

## Findings

| source | as written | input that shows it | evidently intended | confidence | as-written member | corrected member |
|---|---|---|---|---|---|---|
| src/services/api.js:101-105 | when `numberMatched <= numberReturned` the function returns the empty `requiredResult`, dropping the page it already has | a first response with one feature and `context` matched 1, returned 1 | return that page's features | not executed; high, because the dashboard passes the result straight to `transformMetadata` | Api.FetchAllFromStacApiAsWritten, Api.SinglePageIsDropped | Api.FetchAllFromStacApi, Api.CompleteFirstPageIsKept |

The corrected member is the one the rest of the model would use: nothing else
in the model consumes the STAC fetch.
