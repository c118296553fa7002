/** The distance-measuring helpers of
    `src/components/map/measurementLayer/helper/measureDistance.js`: the
    anchor point list a click produces, the cursor over the map, the three
    measurement sources and layers, and the line and label drawn from the
    anchor to the pointer. Turf's `length` and its `toFixed(2)` text are a
    parameter; the click time that names a new point is a parameter. */
module MeasureDistance {
  import opened Wrappers
  import opened Sequences
  import opened Text
  import opened Geo
  import opened MapSurface
  import PlumeLayer

  /** A feature of the `measurePoints` collection: its geometry and its
      `properties.id`. */
  datatype MeasureFeature = MeasureFeature(geometry: Geometry, id: string)

  predicate IsPoint(f: MeasureFeature) {
    f.geometry.Point?
  }

  /** `measurePoints?.features.filter(f => f.geometry.type === 'Point')`. */
  function TotalPoints(measurePoints: Option<seq<MeasureFeature>>): (r: Option<seq<MeasureFeature>>)
    ensures r.None? <==> measurePoints.None?
    ensures r.Some? ==> forall f :: f in r.value <==> f in measurePoints.value && IsPoint(f)
    ensures r.Some? ==> |r.value| <= |measurePoints.value|
  {
    match measurePoints
    case None => None
    case Some(fs) => Some(Filter(fs, IsPoint))
  }

  /** `changeCursor`'s choice: a crosshair while measuring with fewer than two
      points placed, a pointer otherwise (also when there is no collection,
      since `undefined < 2` is false). */
  function ChangeCursor(measurePoints: Option<seq<MeasureFeature>>, measureMode: bool): (cursor: string)
    ensures cursor == "crosshair" || cursor == "pointer"
    ensures cursor == "crosshair" <==>
      measureMode && measurePoints.Some? && |TotalPoints(measurePoints).value| < 2
  {
    var total := TotalPoints(measurePoints);
    if total.Some? && |total.value| < 2 && measureMode then "crosshair" else "pointer"
  }

  /** `findMeasurementAnchor`: the `features` of the returned collection
      (`None` is `undefined`). `hits` are the ids of the rendered
      `measure-points` features under the click, `now` the click time. */
  function FindMeasurementAnchor(hits: seq<string>, measurePoints: Option<seq<MeasureFeature>>,
                                 click: Position, now: nat): (r: Option<seq<MeasureFeature>>)
    // A hit point is taken off, with every other feature of the same id.
    ensures |hits| > 0 ==> (r.None? <==> measurePoints.None?)
    ensures |hits| > 0 && r.Some? ==>
      forall f :: f in r.value <==> f in measurePoints.value && f.id != hits[0]
    // No hit and no point yet: exactly one new point where the click was.
    ensures |hits| == 0 && (measurePoints.None? || |TotalPoints(measurePoints).value| == 0) ==>
      r == Some([MeasureFeature(Point(click), NatToString(now))])
    // No hit with a point already placed: an empty collection.
    ensures |hits| == 0 && measurePoints.Some? && |TotalPoints(measurePoints).value| > 0 ==>
      r == Some([])
  {
    var total := TotalPoints(measurePoints);
    if |hits| > 0 then
      var id := hits[0];
      match measurePoints
      case None => None
      case Some(fs) => Some(Filter(fs, (f: MeasureFeature) => f.id != id))
    else if total.None? || |total.value| == 0 then
      Some([MeasureFeature(Point(click), NatToString(now))])
    else Some([])
  }

  /** A new anchor is placed only when no point is left, so a click that
      hits nothing leaves at most one point. */
  lemma MissedClickLeavesAtMostOnePoint(measurePoints: Option<seq<MeasureFeature>>, click: Position, now: nat)
    ensures var r := FindMeasurementAnchor([], measurePoints, click, now);
            r.Some? && |TotalPoints(r).value| <= 1
  {
  }

  const MeasureSourceIds: set<string> := {"measurePoints", "measureLine", "measureLabel"}
  const MeasureLayerIds: set<string> := {"measure-points", "measure-line", "measure-label"}

  /** The three measurement layers, in the order `addMeasurementLayer` adds
      them. The label and line layers have layout objects without a
      `visibility`; the line is 2 pixels wide. */
  const PointLayer: Layer := Layer("measure-points", CircleKind, "measurePoints", None, None)
  const LabelLayer: Layer := Layer("measure-label", SymbolKind, "measureLabel", Some(Unset), None)
  const LineLayer: Layer := Layer("measure-line", LineKind, "measureLine", Some(Unset), Some(2))

  /** `addMeasurementSource`: nothing without a map or when any of the three
      sources exists; otherwise all three are added with the given data. */
  method AddMeasurementSource(m: Map?, measurePoints: GeoJson, measureLine: GeoJson, measureLabel: GeoJson)
    modifies m
    ensures m != null ==> m.layers == old(m.layers) && m.listeners == old(m.listeners)
    ensures m != null ==> m.styleLoaded == old(m.styleLoaded) && m.onStyleLoad == old(m.onStyleLoad)
    ensures m != null ==> (m.sources ==
      if MeasureSourceIds * old(m.sources).Keys != {} then old(m.sources)
      else old(m.sources)["measurePoints" := GeoJsonSource(measurePoints)]
                         ["measureLine" := GeoJsonSource(measureLine)]
                         ["measureLabel" := GeoJsonSource(measureLabel)])
  {
    if m == null || m.SourceExists("measurePoints") || m.SourceExists("measureLine")
       || m.SourceExists("measureLabel") {
      if m != null {
        var id := if m.SourceExists("measurePoints") then "measurePoints"
                  else if m.SourceExists("measureLine") then "measureLine" else "measureLabel";
        assert id in MeasureSourceIds * m.sources.Keys;
      }
      return;
    }
    var ok := m.AddSource("measurePoints", GeoJsonSource(measurePoints));
    ok := m.AddSource("measureLine", GeoJsonSource(measureLine));
    ok := m.AddSource("measureLabel", GeoJsonSource(measureLabel));
  }

  /** `addMeasurementLayer`: nothing without a map or when any of the three
      layers exists; otherwise points, label and line are added on top. */
  method AddMeasurementLayer(m: Map?)
    requires m != null ==> m.Valid()
    modifies m
    ensures m != null ==> m.Valid() && m.sources == old(m.sources) && m.listeners == old(m.listeners)
    ensures m != null ==> m.styleLoaded == old(m.styleLoaded) && m.onStyleLoad == old(m.onStyleLoad)
    ensures m != null ==> (m.layers ==
      if exists id :: id in MeasureLayerIds && HasLayer(old(m.layers), id) then old(m.layers)
      else old(m.layers) + [PointLayer, LabelLayer, LineLayer])
  {
    if m == null {
      return;
    }
    if m.LayerExists("measure-points") || m.LayerExists("measure-line") || m.LayerExists("measure-label") {
      return;
    }
    ghost var before := m.layers;
    assert forall id :: id in MeasureLayerIds ==> !HasLayer(before, id);
    m.AddLayer(PointLayer);
    assert !HasLayer(m.layers, "measure-label") by {
      assert m.layers == before + [PointLayer];
      forall i | 0 <= i < |m.layers| ensures m.layers[i].id != "measure-label" {
        if i < |before| { assert m.layers[i] == before[i]; }
      }
    }
    ghost var mid := m.layers;
    m.AddLayer(LabelLayer);
    assert !HasLayer(m.layers, "measure-line") by {
      assert m.layers == mid + [LabelLayer];
      forall i | 0 <= i < |m.layers| ensures m.layers[i].id != "measure-line" {
        if i < |before| { assert m.layers[i] == before[i]; }
      }
    }
    m.AddLayer(LineLayer);
  }

  /** `removeMeasurementLayer`: each measurement layer that exists is
      removed; nothing else changes. */
  method RemoveMeasurementLayer(m: Map?)
    requires m != null ==> m.Valid()
    modifies m
    ensures m != null ==> m.Valid() && m.sources == old(m.sources) && m.listeners == old(m.listeners)
    ensures m != null ==> m.layers == Without(old(m.layers), MeasureLayerIds)
    ensures m != null ==> m.styleLoaded == old(m.styleLoaded) && m.onStyleLoad == old(m.onStyleLoad)
  {
    if m != null {
      ghost var l0 := m.layers;
      PlumeLayer.RemoveLayerIfExists(m, "measure-points");
      PlumeLayer.RemoveLayerIfExists(m, "measure-line");
      WithoutTwice(l0, {"measure-points"}, {"measure-line"});
      assert {"measure-points"} + {"measure-line"} == {"measure-points", "measure-line"};
      PlumeLayer.RemoveLayerIfExists(m, "measure-label");
      WithoutTwice(l0, {"measure-points", "measure-line"}, {"measure-label"});
      assert {"measure-points", "measure-line"} + {"measure-label"} == MeasureLayerIds;
    }
  }

  /** The unit word shown after the distance. */
  function LabelUnit(mapScaleUnit: string): (u: string)
    ensures u == (if mapScaleUnit == "mi" then " miles" else " km")
  {
    if mapScaleUnit == "mi" then " miles" else " km"
  }

  /** The unit turf measures in. */
  function TurfUnits(mapScaleUnit: string): string {
    if mapScaleUnit == "mi" then "miles" else "kilometers"
  }

  /** The line and its label; coordinates are `None` where the source reads
      `undefined`. */
  datatype MeasuringLine = MeasuringLine(
    linePath: seq<Option<Position>>,
    labelPath: seq<Option<Position>>,
    description: string)

  /** The first feature's point coordinates, `undefined` without one. */
  function AnchorCoordinates(measurePoints: Option<seq<MeasureFeature>>): Option<Position> {
    if measurePoints.None? || |measurePoints.value| == 0 then None
    else match measurePoints.value[0].geometry
      case Point(at) => Some(at)
      case _ => None
  }

  /** `createMeasuringLine`: the line runs from the first feature to the
      pointer and the label the other way; the description is the distance
      text, a space, and ` miles` or ` km`. `lengthText` stands for
      `length(...).toFixed(2)`. */
  function CreateMeasuringLine(pointer: Position, measurePoints: Option<seq<MeasureFeature>>, mapScaleUnit: string,
                               lengthText: (seq<Option<Position>>, string) -> string): (r: MeasuringLine)
    ensures |r.linePath| == 2 && r.linePath[0] == AnchorCoordinates(measurePoints) && r.linePath[1] == Some(pointer)
    ensures |r.labelPath| == 2 && r.labelPath[0] == r.linePath[1] && r.labelPath[1] == r.linePath[0]
    ensures r.description == lengthText(r.linePath, TurfUnits(mapScaleUnit)) + " " + LabelUnit(mapScaleUnit)
  {
    var start := AnchorCoordinates(measurePoints);
    var end := Some(pointer);
    MeasuringLine([start, end], [end, start],
                  lengthText([start, end], TurfUnits(mapScaleUnit)) + " " + LabelUnit(mapScaleUnit))
  }
}
