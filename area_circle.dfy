/** The circle layer of `src/components/map/deckgl/areaBasedCircle.jsx`:
    one scatterplot circle per item whose bounding box has a positive area.
    deck.gl's `ScatterplotLayer` is reduced to the fields the model reads. */
module AreaCircle {
  import opened Wrappers
  import opened Sequences
  import opened Geo

  /** `BBOX_AREA_THRESHOLD` of this file. */
  const BboxAreaThreshold: real := 0.0

  const MinRadiusMeters: real := 1500.0
  const MaxRadiusMeters: real := 3000.0

  function Abs(x: real): (r: real)
    ensures r >= 0.0 && (r == x || r == -x)
  {
    if x < 0.0 then -x else x
  }

  /** `bboxArea`: `|east - west| * |north - south|` for a
      `[west, south, east, north]` box, and 0 for anything else. */
  function BboxArea(bbox: Option<seq<real>>): (a: real)
    ensures a >= 0.0
    ensures bbox.None? || |bbox.value| != 4 ==> a == 0.0
  {
    if bbox.None? || |bbox.value| != 4 then 0.0
    else
      var b := bbox.value;
      Abs(b[2] - b[0]) * Abs(b[3] - b[1])
  }

  /** The area is zero exactly for a missing box, one without four
      components, or one that is flat in either direction. */
  lemma BboxAreaZero(bbox: Option<seq<real>>)
    ensures BboxArea(bbox) == 0.0 <==>
      bbox.None? || |bbox.value| != 4 || bbox.value[2] == bbox.value[0] || bbox.value[3] == bbox.value[1]
  {
    if bbox.Some? && |bbox.value| == 4 {
      var b := bbox.value;
      var x, y := Abs(b[2] - b[0]), Abs(b[3] - b[1]);
      assert x * y == 0.0 <==> x == 0.0 || y == 0.0 by {
        if x != 0.0 && y != 0.0 {
          assert x > 0.0 && y > 0.0;
          assert x * y > 0.0;
        }
      }
    }
  }

  /** The comparison `filterByBboxArea` applies: `<` for `'lt'`, and `>` for
      any other operator string. */
  predicate KeepsArea(area: real, threshold: real, op: string) {
    if op == "lt" then area < threshold else area > threshold
  }

  /** `filterByBboxArea(data, threshold, op)`: `[]` for missing data,
      otherwise the items whose area passes the comparison, in order. The
      source's default operator is `"lt"`. */
  function FilterByBboxArea(data: Option<seq<VizItem>>, threshold: real, op: string): (r: seq<VizItem>)
    ensures data.None? ==> r == []
    ensures data.Some? ==>
      (forall it :: it in r <==>
        (it in data.value && (if op == "lt" then BboxArea(it.bbox) < threshold
                              else BboxArea(it.bbox) > threshold)))
    ensures data.Some? ==> SubsequenceOf(r, data.value)
  {
    match data
    case None => []
    case Some(items) => Filter(items, (it: VizItem) => KeepsArea(BboxArea(it.bbox), threshold, op))
  }

  /** `getRadiusOfCircle` in metres. The log-scaled position of `weight`
      between the two extremes is floating-point work and is passed in as
      `scale`; the model keeps the constant case and the linear map onto
      `[1500, 3000]`. */
  function RadiusOfCircle(weight: real, minWeight: real, maxWeight: real, scale: real): (r: real)
    ensures minWeight == maxWeight ==> r == MinRadiusMeters
    ensures minWeight != maxWeight && 0.0 <= scale <= 1.0 ==> MinRadiusMeters <= r <= MaxRadiusMeters
  {
    if minWeight == maxWeight then MinRadiusMeters
    else MinRadiusMeters + scale * (MaxRadiusMeters - MinRadiusMeters)
  }

  /** The fields of the `ScatterplotLayer` the rest of the model reads. */
  datatype CircleLayer = CircleLayer(id: string, data: seq<VizItem>, visible: bool)

  /** `useAreaBasedCircle`'s memoised layer: `null` without `stacData`,
      otherwise the `circle-layer` over the items of positive area. */
  function CircleLayerFor(stacData: Option<seq<VizItem>>, showCircle: bool): (c: Option<CircleLayer>)
    ensures c.None? <==> stacData.None?
    ensures c.Some? ==> c.value.id == "circle-layer" && c.value.visible == showCircle
    ensures c.Some? ==>
      forall it :: it in c.value.data <==> it in stacData.value && BboxArea(it.bbox) > 0.0
  {
    if stacData.None? then None
    else Some(CircleLayer("circle-layer", FilterByBboxArea(stacData, BboxAreaThreshold, "gt"), showCircle))
  }

  /** Every circle has a four-component box that is not flat: degenerate
      boxes never reach the circle layer. */
  lemma CirclesHaveProperBoxes(stacData: Option<seq<VizItem>>, showCircle: bool, it: VizItem)
    requires stacData.Some? && it in CircleLayerFor(stacData, showCircle).value.data
    ensures it.bbox.Some? && |it.bbox.value| == 4
    ensures it.bbox.value[0] != it.bbox.value[2] && it.bbox.value[1] != it.bbox.value[3]
  {
    BboxAreaZero(it.bbox);
  }

  /** The `onClick` of both deck.gl layers: the clicked object's `bbox` is
      handed on only when an object with a `bbox` was picked and a callback
      was supplied. */
  function OnPick(picked: Option<VizItem>, hasCallback: bool): (bbox: Option<seq<real>>)
    ensures bbox.Some? <==> picked.Some? && picked.value.bbox.Some? && hasCallback
    ensures bbox.Some? ==> bbox.value == picked.value.bbox.value
  {
    if picked.Some? && picked.value.bbox.Some? && hasCallback then picked.value.bbox else None
  }
}
