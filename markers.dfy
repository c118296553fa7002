/** The marker layer of `src/components/map/deckgl/markerComponents.jsx`:
    one icon per item whose bounding box is small. The file carries its own
    copies of `bboxArea` and `filterByBboxArea`; the lemmas below relate them
    to the circle layer's. */
module Markers {
  import opened Wrappers
  import opened Sequences
  import opened Geo
  import AreaCircle

  /** `BBOX_AREA_THRESHOLD` of this file, in square degrees. */
  const BboxAreaThreshold: real := 10.0

  /** `bboxArea`: `|east - west| * |north - south|` for a four-component
      box, and 0 for a missing box or any other length. */
  function BboxArea(bbox: Option<seq<real>>): (a: real)
    ensures a >= 0.0
    ensures bbox.None? || |bbox.value| != 4 ==> a == 0.0
  {
    if bbox.None? || |bbox.value| != 4 then 0.0
    else
      var b := bbox.value;
      AreaCircle.Abs(b[2] - b[0]) * AreaCircle.Abs(b[3] - b[1])
  }

  /** `filterByBboxArea` of this file: no guard for missing data (its only
      caller checks first); `'lt'` keeps areas below the threshold and any
      other operator areas above it, in order. */
  function FilterByBboxArea(data: seq<VizItem>, threshold: real, op: string): (r: seq<VizItem>)
    ensures forall it :: it in r <==>
      (it in data && (if op == "lt" then BboxArea(it.bbox) < threshold else BboxArea(it.bbox) > threshold))
    ensures SubsequenceOf(r, data)
  {
    Filter(data, (it: VizItem) => if op == "lt" then BboxArea(it.bbox) < threshold else BboxArea(it.bbox) > threshold)
  }

  /** The two copies of the filter agree whenever there is data. */
  lemma FiltersAgree(data: seq<VizItem>, threshold: real, op: string)
    ensures FilterByBboxArea(data, threshold, op) == AreaCircle.FilterByBboxArea(Some(data), threshold, op)
  {
    FilterSameTest(data,
      (it: VizItem) => if op == "lt" then BboxArea(it.bbox) < threshold else BboxArea(it.bbox) > threshold,
      (it: VizItem) => AreaCircle.KeepsArea(AreaCircle.BboxArea(it.bbox), threshold, op));
  }

  /** The fields of the `IconLayer` the rest of the model reads. */
  datatype MarkerLayer = MarkerLayer(id: string, data: seq<VizItem>, visible: bool)

  /** `useMarkerLayer`'s memoised layer: `null` without `stacData`,
      otherwise the `mangrove-markers` layer over the items of area below 10. */
  function MarkerLayerFor(stacData: Option<seq<VizItem>>, showMarkers: bool): (l: Option<MarkerLayer>)
    ensures l.None? <==> stacData.None?
    ensures l.Some? ==> l.value.id == "mangrove-markers" && l.value.visible == showMarkers
    ensures l.Some? ==>
      forall it :: it in l.value.data <==> it in stacData.value && BboxArea(it.bbox) < BboxAreaThreshold
  {
    if stacData.None? then None
    else Some(MarkerLayer("mangrove-markers", FilterByBboxArea(stacData.value, BboxAreaThreshold, "lt"), showMarkers))
  }

  /** Items without a usable box (area 0) are drawn as markers and never as
      circles; items of area 10 or more only as circles; every item is drawn
      by at least one of the two layers. */
  lemma MarkersAndCirclesCoverItems(stacData: seq<VizItem>, showMarkers: bool, showCircle: bool, it: VizItem)
    requires it in stacData
    ensures var markers := MarkerLayerFor(Some(stacData), showMarkers).value.data;
            var circles := AreaCircle.CircleLayerFor(Some(stacData), showCircle).value.data;
            (it in markers || it in circles)
            && (BboxArea(it.bbox) == 0.0 ==> it in markers && it !in circles)
            && (BboxArea(it.bbox) >= BboxAreaThreshold ==> it !in markers && it in circles)
  {
    assert BboxArea(it.bbox) == AreaCircle.BboxArea(it.bbox);
  }

  /** The marker `onClick`: the picked object's `bbox` is handed on only when
      a callback exists and the object has a `bbox`. */
  function OnMarkerClick(picked: Option<VizItem>, hasCallback: bool): (bbox: Option<seq<real>>)
    ensures bbox.Some? <==> hasCallback && picked.Some? && picked.value.bbox.Some?
    ensures bbox.Some? ==> bbox.value == picked.value.bbox.value
  {
    if hasCallback && picked.Some? && picked.value.bbox.Some? then picked.value.bbox else None
  }
}
