/** The map helpers of `src/components/map/utils/index.js`: id builders,
    existence checks, the guarded `add…ToMap` functions and the coverage
    polygon. `map` is `null` when the caller has no map yet. */
module MapUtils {
  import opened Wrappers
  import opened Text
  import opened Geo
  import opened MapSurface

  /** `getSourceId(layer, idx)`. */
  function GetSourceId(layer: string, idx: string): string
  {
    layer + "-" + idx
  }

  /** `getLayerId(layer, idx)`: the same string as `getSourceId`. */
  function GetLayerId(layer: string, idx: string): (r: string)
    ensures r == GetSourceId(layer, idx)
  {
    layer + "-" + idx
  }

  /** The raster tile URL template `addSourceLayerToMap` registers. The
      numbers `VMIN` and `VMAX` arrive already rendered as text. */
  function TileUrl(rasterApiUrl: string, collection: string, itemId: string, assets: string,
                   colormap: string, vmin: string, vmax: string): string
  {
    rasterApiUrl + "/collections/" + collection + "/tiles/WebMercatorQuad/{z}/{x}/{y}@1x?item="
    + itemId + "&assets=" + assets + "&bidx=1" + "&colormap_name=" + colormap
    + "&rescale=" + vmin + "%2C" + vmax + "&nodata=-9999"
  }

  /** The raster styling every raster layer of an item shares. */
  datatype RasterStyle = RasterStyle(vmin: string, vmax: string, colormap: string, assets: string)

  /** The source `addSourceLayerToMap` registers for a feature. */
  function RasterSourceFor(style: RasterStyle, feature: VizItem, rasterApiUrl: string): (s: Source)
    ensures s.RasterSource? && s.tileSize == 256 && s.bounds == feature.bbox
    ensures s.tiles == [TileUrl(rasterApiUrl, feature.collection, feature.id, style.assets,
                                style.colormap, style.vmin, style.vmax)]
  {
    RasterSource([TileUrl(rasterApiUrl, feature.collection, feature.id, style.assets,
                          style.colormap, style.vmin, style.vmax)], 256, feature.bbox)
  }

  /** The raster layer `addSourceLayerToMap` adds: hidden until shown. */
  function RasterLayerFor(sourceId: string, layerId: string): (l: Layer)
    ensures l.id == layerId && l.kind == RasterKind && l.source == sourceId
    ensures l.layout == Some(Hidden) && l.lineWidth == None
  {
    Layer(layerId, RasterKind, sourceId, Some(Hidden), None)
  }

  /** `addSourceLayerToMap`: nothing happens without a map or when both the
      source and the layer exist. Otherwise `addSource` throws when only the
      source exists, and the error is caught and logged, so nothing is added;
      when only the layer exists the source is added and `addLayer` is
      refused. */
  method AddSourceLayerToMap(m: Map?, style: RasterStyle, feature: VizItem,
                             sourceId: string, layerId: string, rasterApiUrl: string)
    requires m != null ==> m.Valid()
    modifies m
    ensures m != null ==> m.Valid()
    ensures m != null ==> (m.listeners == old(m.listeners) && m.styleLoaded == old(m.styleLoaded)
      && m.onStyleLoad == old(m.onStyleLoad))
    ensures m != null ==> (m.sources ==
      if sourceId in old(m.sources) then old(m.sources)
      else old(m.sources)[sourceId := RasterSourceFor(style, feature, rasterApiUrl)])
    ensures m != null ==> (m.layers ==
      if sourceId in old(m.sources) || HasLayer(old(m.layers), layerId) then old(m.layers)
      else old(m.layers) + [RasterLayerFor(sourceId, layerId)])
  {
    if m == null || (m.SourceExists(sourceId) && m.LayerExists(layerId)) {
      return;
    }
    var ok := m.AddSource(sourceId, RasterSourceFor(style, feature, rasterApiUrl));
    if ok {
      m.AddLayer(RasterLayerFor(sourceId, layerId));
    }
  }

  /** The outline layer `addSourcePolygonToMap` adds. */
  function OutlineLayerFor(sourceId: string, layerId: string, width: int): (l: Layer)
    ensures l.id == layerId && l.kind == LineKind && l.source == sourceId
    ensures l.layout == None && l.lineWidth == Some(width)
  {
    Layer(layerId, LineKind, sourceId, None, Some(width))
  }

  /** The transparent hit-testing layer `addFillPolygonToMap` adds
      (`fill-opacity` 0 is paint the model does not track). */
  function FillLayerFor(sourceId: string, layerId: string): (l: Layer)
    ensures l.id == layerId && l.kind == FillKind && l.source == sourceId
    ensures l.layout == None && l.lineWidth == None
  {
    Layer(layerId, FillKind, sourceId, None, None)
  }

  /** What every guarded add here does to the sources and layers: nothing
      when the source id is taken (both exist, or `addSource` throws);
      otherwise the source is added, and the layer goes on top unless a
      layer of its id already exists. */
  function Added(s: Surface, sourceId: string, src: Source, layer: Layer): Surface {
    if sourceId in s.sources then s
    else Surface(s.sources[sourceId := src], if HasLayer(s.layers, layer.id) then s.layers else s.layers + [layer])
  }

  /** The sources grow by exactly the source id and keep the old values; a
      fresh id gets the new source; the layers only grow on top, by at most
      the new layer; and a layer id is present afterwards exactly when it
      was before or it is the layer's and the source id was fresh. */
  lemma AddedFacts(s: Surface, sourceId: string, src: Source, layer: Layer)
    ensures var r := Added(s, sourceId, src, layer);
      && r.sources.Keys == s.sources.Keys + {sourceId}
      && (forall x :: x in s.sources ==> r.sources[x] == s.sources[x])
      && (sourceId !in s.sources ==> r.sources[sourceId] == src)
      && (sourceId in s.sources ==> r.layers == s.layers)
      && s.layers <= r.layers && |r.layers| <= |s.layers| + 1
      && (forall j :: |s.layers| <= j < |r.layers| ==> r.layers[j] == layer)
      && (forall q :: HasLayer(r.layers, q) <==> HasLayer(s.layers, q) || (q == layer.id && sourceId !in s.sources))
  {
    PushFacts(s.layers, layer);
  }

  /** The shared shape of `addSourcePolygonToMap` and `addFillPolygonToMap`:
      skip without a map or when source and layer both exist; otherwise
      `addSource` (whose exception is not caught: `ok` is false) and then
      `addLayer`. */
  method AddGeoJsonLayer(m: Map?, data: GeoJson, sourceId: string, layer: Layer) returns (ok: bool)
    requires m != null ==> m.Valid()
    modifies m
    ensures m != null ==> m.Valid()
    ensures m != null ==> (m.listeners == old(m.listeners) && m.styleLoaded == old(m.styleLoaded)
      && m.onStyleLoad == old(m.onStyleLoad))
    ensures ok <==> (m == null || (sourceId in old(m.sources) && HasLayer(old(m.layers), layer.id))
      || sourceId !in old(m.sources))
    ensures m != null ==> (m.sources ==
      if sourceId in old(m.sources) then old(m.sources) else old(m.sources)[sourceId := GeoJsonSource(data)])
    ensures m != null ==> (m.layers ==
      if sourceId in old(m.sources) || HasLayer(old(m.layers), layer.id) then old(m.layers)
      else old(m.layers) + [layer])
  {
    if m == null || (m.SourceExists(sourceId) && m.LayerExists(layer.id)) {
      return true;
    }
    ok := m.AddSource(sourceId, GeoJsonSource(data));
    if ok {
      m.AddLayer(layer);
    }
  }

  /** `addSourcePolygonToMap(map, feature, sourceId, layerId, width)`. */
  method AddSourcePolygonToMap(m: Map?, feature: GeoJson, sourceId: string, layerId: string, width: int)
    returns (ok: bool)
    requires m != null ==> m.Valid()
    modifies m
    ensures m != null ==> m.Valid()
    ensures m != null ==> (m.listeners == old(m.listeners) && m.styleLoaded == old(m.styleLoaded)
      && m.onStyleLoad == old(m.onStyleLoad))
    ensures ok <==> m == null || HasLayer(old(m.layers), layerId) || sourceId !in old(m.sources)
    ensures m != null ==> (m.sources ==
      if sourceId in old(m.sources) then old(m.sources) else old(m.sources)[sourceId := GeoJsonSource(feature)])
    ensures m != null ==> (m.layers ==
      if sourceId in old(m.sources) || HasLayer(old(m.layers), layerId) then old(m.layers)
      else old(m.layers) + [OutlineLayerFor(sourceId, layerId, width)])
  {
    ok := AddGeoJsonLayer(m, feature, sourceId, OutlineLayerFor(sourceId, layerId, width));
  }

  /** `addFillPolygonToMap(map, feature, sourceId, layerId)`. */
  method AddFillPolygonToMap(m: Map?, feature: GeoJson, sourceId: string, layerId: string)
    returns (ok: bool)
    requires m != null ==> m.Valid()
    modifies m
    ensures m != null ==> m.Valid()
    ensures m != null ==> (m.listeners == old(m.listeners) && m.styleLoaded == old(m.styleLoaded)
      && m.onStyleLoad == old(m.onStyleLoad))
    ensures ok <==> m == null || HasLayer(old(m.layers), layerId) || sourceId !in old(m.sources)
    ensures m != null ==> (m.sources ==
      if sourceId in old(m.sources) then old(m.sources) else old(m.sources)[sourceId := GeoJsonSource(feature)])
    ensures m != null ==> (m.layers ==
      if sourceId in old(m.sources) || HasLayer(old(m.layers), layerId) then old(m.layers)
      else old(m.layers) + [FillLayerFor(sourceId, layerId)])
  {
    ok := AddGeoJsonLayer(m, feature, sourceId, FillLayerFor(sourceId, layerId));
  }

  /** The first layer whose id starts with `raster-`, if any. */
  function FirstRasterLayer(ls: seq<Layer>): (r: Option<nat>)
    ensures r.Some? ==> (r.value < |ls| && StartsWith(ls[r.value].id, "raster-")
      && forall i :: 0 <= i < r.value ==> !StartsWith(ls[i].id, "raster-"))
    ensures r.None? ==> forall i :: 0 <= i < |ls| ==> !StartsWith(ls[i].id, "raster-")
    decreases |ls|
  {
    if |ls| == 0 then None
    else if StartsWith(ls[0].id, "raster-") then Some(0)
    else match FirstRasterLayer(ls[1..])
      case None => None
      case Some(k) => Some(k + 1)
  }

  /** The coverage fill layer. */
  function CoverageLayerFor(sourceId: string, layerId: string): (l: Layer)
    ensures l.id == layerId && l.kind == FillKind && l.source == sourceId && l.layout == None
  {
    Layer(layerId, FillKind, sourceId, None, None)
  }

  /** The layer list after `addCoveragePolygon` adds its layer to `ls`:
      appended, then moved in front of the first `raster-` layer. */
  function CoverageLayers(ls: seq<Layer>, sourceId: string, layerId: string): seq<Layer>
  {
    var added := ls + [CoverageLayerFor(sourceId, layerId)];
    match FirstRasterLayer(added)
    case None => added
    case Some(k) => MoveBefore(added, layerId, added[k].id)
  }

  /** `addCoveragePolygon`: before the style has loaded the call is queued
      for `style.load`; afterwards the source and the layer are each added
      only if absent, and a newly added layer goes directly below the first
      `raster-` layer. */
  method AddCoveragePolygon(m: Map, sourceId: string, layerId: string, data: GeoJson)
    requires m.Valid()
    modifies m
    ensures m.Valid()
    ensures m.listeners == old(m.listeners) && m.styleLoaded == old(m.styleLoaded)
    ensures !m.styleLoaded ==>
      && m.onStyleLoad == old(m.onStyleLoad) + [AddCoverage(sourceId, layerId, data)]
      && m.sources == old(m.sources) && m.layers == old(m.layers)
    ensures m.styleLoaded ==>
      && m.onStyleLoad == old(m.onStyleLoad)
      && m.sources == (if sourceId in old(m.sources) then old(m.sources)
                       else old(m.sources)[sourceId := GeoJsonSource(data)])
      && m.layers == (if HasLayer(old(m.layers), layerId) then old(m.layers)
                      else CoverageLayers(old(m.layers), sourceId, layerId))
  {
    if !m.styleLoaded {
      m.Once(AddCoverage(sourceId, layerId, data));
      return;
    }
    if !m.SourceExists(sourceId) {
      var _ := m.AddSource(sourceId, GeoJsonSource(data));
    }
    if !m.LayerExists(layerId) {
      m.AddLayer(CoverageLayerFor(sourceId, layerId));
      var first := FirstRasterLayer(m.layers);
      if first.Some? {
        m.MoveLayer(layerId, m.layers[first.value].id);
      }
    }
  }

  /** The added coverage layer sits directly below the first raster layer,
      and no layer is lost or duplicated. */
  lemma CoverageBelowFirstRaster(ls: seq<Layer>, sourceId: string, layerId: string)
    requires UniqueIds(ls) && !HasLayer(ls, layerId)
    requires !StartsWith(layerId, "raster-")
    requires FirstRasterLayer(ls).Some?
    ensures var r := CoverageLayers(ls, sourceId, layerId);
      && |r| == |ls| + 1 && UniqueIds(r)
      && (forall l :: l in r <==> l in ls || l == CoverageLayerFor(sourceId, layerId))
      && exists k :: 0 <= k < |r| - 1 && r[k].id == layerId && r[k + 1].id == ls[FirstRasterLayer(ls).value].id
  {
    var cov := CoverageLayerFor(sourceId, layerId);
    var added := ls + [cov];
    var f := FirstRasterLayer(ls).value;
    AppendFacts(ls, cov, f);
    FirstRasterOfAppend(ls, cov);
    assert CoverageLayers(ls, sourceId, layerId) == MoveBefore(added, layerId, ls[f].id);
    MoveBeforeFacts(added, layerId, ls[f].id);
  }

  /** Appending a layer with a new id. */
  lemma AppendFacts(ls: seq<Layer>, l: Layer, f: nat)
    requires UniqueIds(ls) && !HasLayer(ls, l.id) && f < |ls|
    ensures var added := ls + [l];
      && |added| == |ls| + 1 && UniqueIds(added)
      && (forall x :: x in added <==> x in ls || x == l)
      && HasLayer(added, l.id) && HasLayer(added, ls[f].id) && added[f] == ls[f]
      && l.id != ls[f].id
  {
    var added := ls + [l];
    InsertKeepsUnique(ls, l, |ls|);
    assert ls[..|ls|] + [l] + ls[|ls|..] == added;
    assert added[|ls|].id == l.id;
    assert added[f] == ls[f];
  }

  lemma {:induction false} FirstRasterOfAppend(ls: seq<Layer>, l: Layer)
    requires FirstRasterLayer(ls).Some?
    ensures FirstRasterLayer(ls + [l]) == FirstRasterLayer(ls)
    decreases |ls|
  {
    if !StartsWith(ls[0].id, "raster-") {
      assert (ls + [l])[1..] == ls[1..] + [l];
      FirstRasterOfAppend(ls[1..], l);
    }
  }

  /** `isFeatureWithinBounds(feature, bounds)`: the turf intersection test
      against the rectangle of the map bounds, taken as a parameter. */
  function IsFeatureWithinBounds(feature: Option<Geometry>, bounds: Bounds,
                                 intersects: (Option<Geometry>, Bounds) -> bool): bool
  {
    intersects(feature, bounds)
  }

  /** Map bounds: south-west and north-east corners. */
  datatype Bounds = Bounds(sw: Position, ne: Position)
}
