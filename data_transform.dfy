/** The metadata and coverage transforms of `src/utils/dataTransform.ts`:
    metadata features are filed by the id in their `Data Download` link,
    STAC items are sorted by datetime and joined with their point and
    polygon metadata into plumes, and coverage features are trimmed to their
    time range and sorted by start time. The answers of the location
    endpoint are the parameter `Geocoder.answer`; `roundCoordinates` is the
    parameter `round`. */
module DataTransform {
  import opened Wrappers
  import opened Sequences
  import opened Text
  import opened Geo
  import Api

  /** A metadata feature: its `Data Download` link, its `Plume ID`
      property (`None` when absent) and its geometry. */
  datatype MetaFeature = MetaFeature(dataDownload: string, plumeId: Option<string>, geometry: Geometry)

  /** `dataDownload.split('/').pop().split('.')[0]`: the file name of the
      link up to its first `.`. */
  function MetadataId(dataDownload: string): (id: string)
    ensures '/' !in id && '.' !in id
  {
    var file := LastPart(dataDownload, '/');
    var id := Split(file, '.')[0];
    LastPartIsSuffix(dataDownload, '/');
    SplitPartsLackSep(file, '.');
    assert '/' !in id by {
      if '/' in id {
        SplitPartChars(file, '.', 0, '/');
      }
    }
    id
  }

  /** For a link `<dir>/<name>.<ext>` the id is `name`. */
  lemma MetadataIdOfPath(dir: string, name: string, ext: string)
    requires '/' !in name && '.' !in name && '/' !in ext
    ensures MetadataId(dir + "/" + name + "." + ext) == name
  {
    var file := name + "." + ext;
    assert dir + "/" + name + "." + ext == dir + ['/'] + file;
    LastPartAfter(dir, '/', file);
    SplitAfterPrefix(name, '.', ext);
  }

  predicate IsPolygon(f: MetaFeature) { f.geometry.Polygon? }
  predicate IsPoint(f: MetaFeature) { f.geometry.Point? }

  /** `polygonLookup` (with `IsPolygon`) or `pointLookup` (with `IsPoint`)
      after the loop over `fs`: a later feature with the same id replaces an
      earlier one, features of the other kinds are skipped. */
  function LookupOf(fs: seq<MetaFeature>, kind: MetaFeature -> bool): (r: map<string, MetaFeature>)
    ensures forall id :: id in r ==> r[id] in fs && kind(r[id]) && MetadataId(r[id].dataDownload) == id
    decreases |fs|
  {
    if |fs| == 0 then map[]
    else
      var f := fs[|fs| - 1];
      var r := LookupOf(fs[..|fs| - 1], kind);
      assert forall g :: g in fs[..|fs| - 1] ==> g in fs;
      if kind(f) then r[MetadataId(f.dataDownload) := f] else r
  }

  /** A feature of the kind is filed under its id unless a later feature of
      the kind has the same id; the keys are exactly the ids of the features
      of the kind. */
  lemma {:induction false} LookupLastWins(fs: seq<MetaFeature>, kind: MetaFeature -> bool, i: nat)
    requires i < |fs| && kind(fs[i])
    requires forall j :: i < j < |fs| && kind(fs[j]) ==>
      MetadataId(fs[j].dataDownload) != MetadataId(fs[i].dataDownload)
    ensures MetadataId(fs[i].dataDownload) in LookupOf(fs, kind)
    ensures LookupOf(fs, kind)[MetadataId(fs[i].dataDownload)] == fs[i]
    decreases |fs|
  {
    var n := |fs| - 1;
    var id := MetadataId(fs[i].dataDownload);
    if i < n {
      var init := fs[..n];
      assert init[i] == fs[i];
      forall j | i < j < |init| && kind(init[j])
        ensures MetadataId(init[j].dataDownload) != id
      {
        assert init[j] == fs[j];
      }
      LookupLastWins(init, kind, i);
      LookupKeepsEntry(fs, kind, id, fs[i]);
    } else {
      LookupUnfold(fs, kind);
    }
  }

  /** Filing the last feature keeps an entry under another id. */
  lemma LookupKeepsEntry(fs: seq<MetaFeature>, kind: MetaFeature -> bool, id: string, f: MetaFeature)
    requires |fs| > 0
    requires id in LookupOf(fs[..|fs| - 1], kind) && LookupOf(fs[..|fs| - 1], kind)[id] == f
    requires kind(fs[|fs| - 1]) ==> MetadataId(fs[|fs| - 1].dataDownload) != id
    ensures id in LookupOf(fs, kind) && LookupOf(fs, kind)[id] == f
  {
    LookupUnfold(fs, kind);
  }

  /** One step of the loop: the last feature is filed if it is of the kind. */
  lemma LookupUnfold(fs: seq<MetaFeature>, kind: MetaFeature -> bool)
    requires |fs| > 0
    ensures var last := fs[|fs| - 1];
      LookupOf(fs, kind) == if kind(last) then LookupOf(fs[..|fs| - 1], kind)[MetadataId(last.dataDownload) := last]
                            else LookupOf(fs[..|fs| - 1], kind)
  {
  }

  lemma {:induction false} LookupKeys(fs: seq<MetaFeature>, kind: MetaFeature -> bool, id: string)
    ensures id in LookupOf(fs, kind) <==>
      exists i :: 0 <= i < |fs| && kind(fs[i]) && MetadataId(fs[i].dataDownload) == id
    decreases |fs|
  {
    if |fs| > 0 {
      var n := |fs| - 1;
      var init := fs[..n];
      LookupKeys(init, kind, id);
      if exists i :: 0 <= i < n && kind(init[i]) && MetadataId(init[i].dataDownload) == id {
        var i :| 0 <= i < n && kind(init[i]) && MetadataId(init[i].dataDownload) == id;
        assert fs[i] == init[i];
      }
      if exists i :: 0 <= i < |fs| && kind(fs[i]) && MetadataId(fs[i].dataDownload) == id {
        var i :| 0 <= i < |fs| && kind(fs[i]) && MetadataId(fs[i].dataDownload) == id;
        if i < n {
          assert init[i] == fs[i];
        }
      }
    }
  }

  /** The `for … of` loop that fills the two lookups. */
  method BuildLookups(metaFeatures: seq<MetaFeature>)
    returns (polygonLookup: map<string, MetaFeature>, pointLookup: map<string, MetaFeature>)
    ensures polygonLookup == LookupOf(metaFeatures, IsPolygon)
    ensures pointLookup == LookupOf(metaFeatures, IsPoint)
  {
    polygonLookup := map[];
    pointLookup := map[];
    var i := 0;
    while i < |metaFeatures|
      invariant 0 <= i <= |metaFeatures|
      invariant polygonLookup == LookupOf(metaFeatures[..i], IsPolygon)
      invariant pointLookup == LookupOf(metaFeatures[..i], IsPoint)
    {
      var feature := metaFeatures[i];
      assert metaFeatures[..i + 1][..i] == metaFeatures[..i];
      var id := MetadataId(feature.dataDownload);
      if feature.geometry.Polygon? {
        polygonLookup := polygonLookup[id := feature];
      } else if feature.geometry.Point? {
        pointLookup := pointLookup[id := feature];
      }
      i := i + 1;
    }
    assert metaFeatures[..i] == metaFeatures;
  }

  function Datetime(item: VizItem): int { item.datetime }

  /** `stacData.sort(...)` by datetime, earliest first. */
  function SortByDatetime(stacData: seq<VizItem>): (r: seq<VizItem>)
    ensures |r| == |stacData| && multiset(r) == multiset(stacData)
    ensures forall i, j :: 0 <= i < j < |r| ==> r[i].datetime <= r[j].datetime
  {
    SortBy(stacData, Datetime)
  }

  /** `sortedData[sortedData.length - 1]`, `undefined` for no items. */
  function LatestPlume(sorted: seq<VizItem>): (r: Option<VizItem>)
    ensures r.None? <==> |sorted| == 0
    ensures r.Some? ==> r.value == sorted[|sorted| - 1]
  {
    if |sorted| == 0 then None else Some(sorted[|sorted| - 1])
  }

  /** The latest plume is one of the items, and none is later. */
  lemma LatestIsNewest(stacData: seq<VizItem>)
    requires |stacData| > 0
    ensures var latest := LatestPlume(SortByDatetime(stacData)).value;
            latest in stacData && forall it :: it in stacData ==> it.datetime <= latest.datetime
  {
    var sorted := SortByDatetime(stacData);
    var latest := sorted[|sorted| - 1];
    assert latest in multiset(stacData) by {
      assert latest in multiset(sorted);
    }
    forall it | it in stacData ensures it.datetime <= latest.datetime {
      assert it in multiset(sorted);
      var k :| 0 <= k < |sorted| && sorted[k] == it;
      if k < |sorted| - 1 { }
    }
  }

  /** The test "was taken at `c`". */
  function AtTime(c: int): VizItem -> bool
  {
    (x: VizItem) => x.datetime == c
  }

  /** Ties at the latest datetime go to the input order: the latest plume is
      the last item, in `stacData`'s order, of those taken at its time. */
  lemma LatestIsLastOfTies(stacData: seq<VizItem>)
    requires |stacData| > 0
    ensures var latest := LatestPlume(SortByDatetime(stacData)).value;
      var ties := Filter(stacData, AtTime(latest.datetime));
      |ties| > 0 && ties[|ties| - 1] == latest
  {
    var sorted := SortByDatetime(stacData);
    var latest := sorted[|sorted| - 1];
    SortByStable(stacData, Datetime, AtTime(latest.datetime), latest.datetime);
    FilterKeepsLast(sorted, AtTime(latest.datetime));
  }

  /** `lon` and `lat` of a plume: the point geometry's coordinates, or
      `undefined` unless the point metadata has a `Point` geometry. */
  function Coordinates(pointInfo: Option<MetaFeature>): (lonLat: (Option<real>, Option<real>))
    ensures pointInfo.Some? && pointInfo.value.geometry.Point? ==>
      lonLat == (Some(pointInfo.value.geometry.at.lng), Some(pointInfo.value.geometry.at.lat))
    ensures !(pointInfo.Some? && pointInfo.value.geometry.Point?) ==> lonLat == (None, None)
  {
    if pointInfo.Some? && pointInfo.value.geometry.Point? then
      (Some(pointInfo.value.geometry.at.lng), Some(pointInfo.value.geometry.at.lat))
    else (None, None)
  }

  /** The plume fields the rest of the application reads. */
  datatype Plume = Plume(
    id: string,
    bbox: Option<seq<real>>,
    lat: Option<real>,
    lon: Option<real>,
    collection: string,
    datetime: int,
    pointGeometry: Option<Geometry>,
    polygonGeometry: Option<Geometry>,
    location: string)

  function Get(lookup: map<string, MetaFeature>, id: string): Option<MetaFeature> {
    if id in lookup then Some(lookup[id]) else None
  }

  // ---------------------------------------------------------------------
  // Reverse geocoding

  /** What `reverseGeocoding` depends on besides the feature: the static
      location lookup of `getAllLocation()` (`None` when falsy), whether an
      API key is configured (`config.geoApifyKey` or the environment), and
      the endpoint's answer for a point feature. */
  datatype Geocoder = Geocoder(
    allLocation: Option<map<string, string>>,
    apiKey: bool,
    answer: MetaFeature -> Option<Api.LocationResponse>)

  /** The message of the `TypeError` raised by reading `properties` of an
      absent feature. */
  const NoFeatureError: string := "TypeError: feature is undefined"

  /** `feature?.properties['Plume ID']` used as an object key: an absent
      feature or property reads as the key `"undefined"`. */
  function PlumeKey(feature: Option<MetaFeature>): string {
    if feature.Some? && feature.value.plumeId.Some? then feature.value.plumeId.value else "undefined"
  }

  /** `locationFromLookup !== undefined && locationFromLookup !== UNKNOWN`. */
  predicate Known(allLocation: map<string, string>, key: string) {
    key in allLocation && allLocation[key] != Api.Unknown
  }

  /** `reverseGeocoding(allLocation, feature, config)`. A falsy lookup gives
      `''`; a known location is returned; otherwise the feature's
      coordinates are read, which throws when there is no feature; without
      an API key the result is `''`, and with one it is what
      `fetchLocationFromEndpoint` makes of the endpoint's answer. */
  function ReverseGeocoding(g: Geocoder, feature: Option<MetaFeature>): (r: Result<string, string>)
    ensures g.allLocation.None? ==> r == Success("")
    ensures g.allLocation.Some? && Known(g.allLocation.value, PlumeKey(feature)) ==>
      r == Success(g.allLocation.value[PlumeKey(feature)])
    ensures r.Failure? <==>
      g.allLocation.Some? && !Known(g.allLocation.value, PlumeKey(feature)) && feature.None?
    ensures r.Failure? ==> r.error == NoFeatureError
    ensures feature.Some? && g.allLocation.Some? && !Known(g.allLocation.value, PlumeKey(feature)) ==>
      r == Success(if g.apiKey then Api.FetchLocationFromEndpoint(g.answer(feature.value)) else "")
  {
    var key := PlumeKey(feature);
    if g.allLocation.None? then Success("")
    else if Known(g.allLocation.value, key) then Success(g.allLocation.value[key])
    else if feature.None? then Failure(NoFeatureError)
    else if !g.apiKey then Success("")
    else Success(Api.FetchLocationFromEndpoint(g.answer(feature.value)))
  }

  /** Whether the callback for an item with this id gets past the `await`:
      its location only depends on the item's point metadata. */
  predicate Geocodes(g: Geocoder, pointLookup: map<string, MetaFeature>, id: string) {
    ReverseGeocoding(g, Get(pointLookup, id)).Success?
  }

  /** An item with point metadata always gets a location. */
  lemma PointMetadataGeocodes(g: Geocoder, pointLookup: map<string, MetaFeature>, id: string)
    requires id in pointLookup
    ensures Geocodes(g, pointLookup, id)
  {
  }

  /** An item with no point metadata gets no location, and so no plume,
      unless the lookup is falsy or knows the key `"undefined"`. */
  lemma MissingPointThrows(g: Geocoder, pointLookup: map<string, MetaFeature>, id: string)
    requires id !in pointLookup
    ensures !Geocodes(g, pointLookup, id) <==>
      g.allLocation.Some? && !Known(g.allLocation.value, "undefined")
  {
  }

  /** The plume built for one STAC item. */
  function PlumeFor(item: VizItem, pointLookup: map<string, MetaFeature>,
                    polygonLookup: map<string, MetaFeature>, location: string): (p: Plume)
    ensures p.id == item.id && p.bbox == item.bbox && p.datetime == item.datetime
    ensures (p.lon, p.lat) == Coordinates(Get(pointLookup, item.id))
    ensures p.pointGeometry.Some? <==> item.id in pointLookup
    ensures p.polygonGeometry.Some? <==> item.id in polygonLookup
    ensures item.id in polygonLookup ==> p.polygonGeometry == Some(polygonLookup[item.id].geometry)
    ensures p.location == location
  {
    var pointInfo := Get(pointLookup, item.id);
    var polygonInfo := Get(polygonLookup, item.id);
    var lonLat := Coordinates(pointInfo);
    Plume(item.id, item.bbox, lonLat.1, lonLat.0, item.collection, item.datetime,
          if pointInfo.Some? then Some(pointInfo.value.geometry) else None,
          if polygonInfo.Some? then Some(polygonInfo.value.geometry) else None,
          location)
  }

  /** The ids of the items whose callback gets past the `await`. */
  function StoredIds(sorted: seq<VizItem>, g: Geocoder, pointLookup: map<string, MetaFeature>): set<string> {
    set i | 0 <= i < |sorted| && Geocodes(g, pointLookup, sorted[i].id) :: sorted[i].id
  }

  /** `plumes` once every `forEach` callback has run, in the order of
      `sorted`: a callback whose geocoding throws stores nothing, the others
      store the item's plume under its id. */
  function PlumesOf(sorted: seq<VizItem>, pointLookup: map<string, MetaFeature>,
                    polygonLookup: map<string, MetaFeature>, g: Geocoder): (r: map<string, Plume>)
    ensures r.Keys == StoredIds(sorted, g, pointLookup)
    ensures forall id :: id in r ==> r[id].id == id
    decreases |sorted|
  {
    if |sorted| == 0 then map[]
    else
      var n := |sorted| - 1;
      var item := sorted[n];
      var r := PlumesOf(sorted[..n], pointLookup, polygonLookup, g);
      IdsStep(sorted, g, pointLookup);
      match ReverseGeocoding(g, Get(pointLookup, item.id))
      case Success(location) => r[item.id := PlumeFor(item, pointLookup, polygonLookup, location)]
      case Failure(_) => r
  }

  /** The stored ids of a list are those of all but its last item, plus the
      last one's when its geocoding succeeds. */
  lemma IdsStep(sorted: seq<VizItem>, g: Geocoder, pointLookup: map<string, MetaFeature>)
    requires |sorted| > 0
    ensures var n := |sorted| - 1;
      StoredIds(sorted, g, pointLookup) == StoredIds(sorted[..n], g, pointLookup)
        + (if Geocodes(g, pointLookup, sorted[n].id) then {sorted[n].id} else {})
  {
    var n := |sorted| - 1;
    var all := StoredIds(sorted, g, pointLookup);
    var init := StoredIds(sorted[..n], g, pointLookup);
    var last: set<string> := if Geocodes(g, pointLookup, sorted[n].id) then {sorted[n].id} else {};
    forall x | x in all ensures x in init + last {
      var i :| 0 <= i < |sorted| && Geocodes(g, pointLookup, sorted[i].id) && sorted[i].id == x;
      if i < n { assert sorted[..n][i] == sorted[i]; }
    }
    forall x | x in init ensures x in all {
      var i :| 0 <= i < n && Geocodes(g, pointLookup, sorted[..n][i].id) && sorted[..n][i].id == x;
      assert sorted[i] == sorted[..n][i];
    }
  }

  /** With a falsy location lookup every item stores a plume. */
  lemma FalsyLookupStoresAll(sorted: seq<VizItem>, pointLookup: map<string, MetaFeature>,
                             polygonLookup: map<string, MetaFeature>, g: Geocoder)
    requires g.allLocation.None?
    ensures PlumesOf(sorted, pointLookup, polygonLookup, g).Keys == set i | 0 <= i < |sorted| :: sorted[i].id
  {
    var stored := StoredIds(sorted, g, pointLookup);
    var all := set i | 0 <= i < |sorted| :: sorted[i].id;
    forall x | x in all ensures x in stored {
      var i :| 0 <= i < |sorted| && sorted[i].id == x;
      assert Geocodes(g, pointLookup, sorted[i].id);
    }
  }

  /** An item without point metadata, under a truthy lookup that does not
      know `"undefined"`, has no plume: its callback throws before storing. */
  lemma ItemWithoutPointHasNoPlume(sorted: seq<VizItem>, pointLookup: map<string, MetaFeature>,
                                   polygonLookup: map<string, MetaFeature>, g: Geocoder, id: string)
    requires id !in pointLookup
    requires g.allLocation.Some? && !Known(g.allLocation.value, "undefined")
    ensures id !in PlumesOf(sorted, pointLookup, polygonLookup, g)
  {
    MissingPointThrows(g, pointLookup, id);
  }

  /** `transformMetadata`: the plumes keyed by STAC item id and the latest
      item by datetime. */
  method TransformMetadata(metaFeatures: seq<MetaFeature>, stacData: seq<VizItem>, g: Geocoder)
    returns (data: map<string, Plume>, latestPlume: Option<VizItem>)
    ensures var sorted := SortByDatetime(stacData);
            data == PlumesOf(sorted, LookupOf(metaFeatures, IsPoint), LookupOf(metaFeatures, IsPolygon), g)
            && latestPlume == LatestPlume(sorted)
  {
    var polygonLookup, pointLookup := BuildLookups(metaFeatures);
    var sortedData := SortByDatetime(stacData);
    latestPlume := LatestPlume(sortedData);
    data := BuildPlumes(sortedData, pointLookup, polygonLookup, g);
  }

  /** The `forEach` over the sorted items: each callback geocodes and, when
      that does not throw, stores its plume. */
  method BuildPlumes(sorted: seq<VizItem>, pointLookup: map<string, MetaFeature>,
                     polygonLookup: map<string, MetaFeature>, g: Geocoder)
    returns (data: map<string, Plume>)
    ensures data == PlumesOf(sorted, pointLookup, polygonLookup, g)
    ensures data.Keys == StoredIds(sorted, g, pointLookup)
  {
    data := map[];
    var i := 0;
    while i < |sorted|
      invariant 0 <= i <= |sorted|
      invariant data == PlumesOf(sorted[..i], pointLookup, polygonLookup, g)
    {
      var item := sorted[i];
      PlumesOfStep(sorted, i, pointLookup, polygonLookup, g);
      var location := ReverseGeocoding(g, Get(pointLookup, item.id));
      if location.Success? {
        data := data[item.id := PlumeFor(item, pointLookup, polygonLookup, location.value)];
      }
      i := i + 1;
    }
    assert sorted[..i] == sorted;
  }

  /** One more callback stores one more plume, or nothing when it throws. */
  lemma PlumesOfStep(sorted: seq<VizItem>, i: nat, pointLookup: map<string, MetaFeature>,
                     polygonLookup: map<string, MetaFeature>, g: Geocoder)
    requires i < |sorted|
    ensures var location := ReverseGeocoding(g, Get(pointLookup, sorted[i].id));
      PlumesOf(sorted[..i + 1], pointLookup, polygonLookup, g)
      == if location.Success?
         then PlumesOf(sorted[..i], pointLookup, polygonLookup, g)[sorted[i].id :=
                PlumeFor(sorted[i], pointLookup, polygonLookup, location.value)]
         else PlumesOf(sorted[..i], pointLookup, polygonLookup, g)
  {
    assert sorted[..i + 1][..i] == sorted[..i];
  }

  /** Every plume is the plume of a STAC item with its id, built with the
      location its geocoding gave. */
  lemma {:induction false} PlumesComeFromItems(sorted: seq<VizItem>, pointLookup: map<string, MetaFeature>,
                            polygonLookup: map<string, MetaFeature>, g: Geocoder, id: string)
    requires id in PlumesOf(sorted, pointLookup, polygonLookup, g)
    ensures ReverseGeocoding(g, Get(pointLookup, id)).Success?
    ensures exists i :: 0 <= i < |sorted| && sorted[i].id == id
               && PlumesOf(sorted, pointLookup, polygonLookup, g)[id]
                  == PlumeFor(sorted[i], pointLookup, polygonLookup, ReverseGeocoding(g, Get(pointLookup, id)).value)
    decreases |sorted|
  {
    var n := |sorted| - 1;
    var location := ReverseGeocoding(g, Get(pointLookup, sorted[n].id));
    if sorted[n].id != id || location.Failure? {
      PlumesComeFromItems(sorted[..n], pointLookup, polygonLookup, g, id);
      var i :| 0 <= i < n && sorted[..n][i].id == id
               && PlumesOf(sorted[..n], pointLookup, polygonLookup, g)[id]
                  == PlumeFor(sorted[..n][i], pointLookup, polygonLookup, ReverseGeocoding(g, Get(pointLookup, id)).value);
      assert sorted[..n][i] == sorted[i];
    }
  }

  // ---------------------------------------------------------------------
  // Coverage

  /** A coverage feature as fetched; `otherProperties` stands for every
      property besides the two times. */
  datatype RawCoverageFeature = RawCoverageFeature(
    startTime: Option<int>,
    endTime: Option<int>,
    otherProperties: map<string, string>,
    geometry: Option<Geometry>)

  /** A processed coverage feature: only the two times are kept. */
  datatype CoverageFeature = CoverageFeature(startTime: Option<int>, endTime: Option<int>, geometry: Option<Geometry>)

  datatype CoverageCollection = CoverageCollection(kind: string, features: seq<CoverageFeature>)

  /** The sort key: `start_time`, or 0 when it is missing. */
  function StartKey(f: CoverageFeature): int {
    f.startTime.GetOr(0)
  }

  /** The `map` step. */
  function Processed(fs: seq<RawCoverageFeature>, round: Option<Geometry> -> Option<Geometry>): (r: seq<CoverageFeature>)
    ensures |r| == |fs|
    ensures forall i :: 0 <= i < |fs| ==>
      r[i] == CoverageFeature(fs[i].startTime, fs[i].endTime, round(fs[i].geometry))
  {
    seq(|fs|, i requires 0 <= i < |fs| => CoverageFeature(fs[i].startTime, fs[i].endTime, round(fs[i].geometry)))
  }

  /** `createIndexedCoverageData`: a `FeatureCollection` of the processed
      features, as many as were given, sorted by start time. */
  function CreateIndexedCoverageData(fs: seq<RawCoverageFeature>, round: Option<Geometry> -> Option<Geometry>)
    : (r: CoverageCollection)
    ensures r.kind == "FeatureCollection" && |r.features| == |fs|
    ensures forall i, j :: 0 <= i < j < |r.features| ==> StartKey(r.features[i]) <= StartKey(r.features[j])
    ensures multiset(r.features) == multiset(Processed(fs, round))
  {
    CoverageCollection("FeatureCollection", SortBy(Processed(fs, round), StartKey))
  }

  /** Each output feature carries the times of some input feature. */
  lemma CoverageKeepsTimes(fs: seq<RawCoverageFeature>, round: Option<Geometry> -> Option<Geometry>, f: CoverageFeature)
    requires f in CreateIndexedCoverageData(fs, round).features
    ensures exists g :: g in fs && f.startTime == g.startTime && f.endTime == g.endTime
  {
    var p := Processed(fs, round);
    assert f in multiset(p) by {
      assert f in multiset(CreateIndexedCoverageData(fs, round).features);
    }
    var i :| 0 <= i < |p| && p[i] == f;
    assert fs[i] in fs;
  }
}
