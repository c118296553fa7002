/** The layer synchroniser of `src/components/map/mapLayer/index.jsx`.
    `processLayers` reads the item ids back out of the names of the
    `raster-*` layers on the map and diffs them against the items in view;
    new items are handed to the `VisualizationLayer` effect, which adds the
    raster, outline and fill layers and binds three handlers; items that
    left the view lose their layers and their registry entry. */
module MapLayer {
  import opened Wrappers
  import opened Sequences
  import opened Text
  import opened Geo
  import opened MapSurface
  import opened MapUtils
  import opened PlumeLayer

  // ---------------------------------------------------------------------
  // The diff

  /** `obj.id.split('-')[1]`: the second `-`-separated part of a name. */
  function IdOfLayerName(name: string): (id: string)
    requires '-' in name
    ensures '-' !in id
  {
    SplitHasTwoParts(name, '-');
    SplitPartsLackSep(name, '-');
    Split(name, '-')[1]
  }

  /** `raster-<id>` gives back `<id>` exactly when `<id>` has no `-`. */
  lemma IdOfRasterName(id: string)
    ensures '-' in GetLayerId("raster", id)
    ensures IdOfLayerName(GetLayerId("raster", id)) == id <==> '-' !in id
  {
    var name := GetLayerId("raster", id);
    assert name == "raster" + ['-'] + id;
    assert name[6] == '-';
    SplitAfterPrefix("raster", '-', id);
    SplitWhole(id, '-');
  }

  /** `item?.id?.includes('raster-')`. */
  predicate IsRasterName(name: string) {
    Contains(name, "raster-")
  }

  /** The ids read from the raster layers, in layer order, repeats kept. */
  function RasterLayerIds(ls: seq<Layer>): (ids: seq<string>)
    ensures forall x :: x in ids ==>
      exists i :: 0 <= i < |ls| && IsRasterName(ls[i].id) && '-' in ls[i].id && IdOfLayerName(ls[i].id) == x
    ensures forall i :: 0 <= i < |ls| && IsRasterName(ls[i].id) ==> '-' in ls[i].id && IdOfLayerName(ls[i].id) in ids
    decreases |ls|
  {
    if |ls| == 0 then []
    else
      var rest := RasterLayerIds(ls[1..]);
      assert forall i :: 1 <= i < |ls| ==> ls[i] == ls[1..][i - 1];
      forall x | x in rest
        ensures exists i :: 0 <= i < |ls| && IsRasterName(ls[i].id) && '-' in ls[i].id && IdOfLayerName(ls[i].id) == x
      {
        var i :| 0 <= i < |ls[1..]| && IsRasterName(ls[1..][i].id) && '-' in ls[1..][i].id && IdOfLayerName(ls[1..][i].id) == x;
        assert ls[i + 1] == ls[1..][i];
      }
      if IsRasterName(ls[0].id) then
        ContainsChars(ls[0].id, "raster-", 6);
        [IdOfLayerName(ls[0].id)] + rest
      else rest
  }

  /** `[...new Set(xs)]`: first occurrences, in order. */
  function Dedup(xs: seq<string>): (r: seq<string>)
    ensures forall x :: x in r <==> x in xs
    ensures forall i, j :: 0 <= i < j < |r| ==> r[i] != r[j]
    decreases |xs|
  {
    if |xs| == 0 then []
    else
      var rest := Dedup(xs[..|xs| - 1]);
      assert forall x :: x in xs <==> x in xs[..|xs| - 1] || x == xs[|xs| - 1] by {
        assert xs == xs[..|xs| - 1] + [xs[|xs| - 1]];
      }
      if xs[|xs| - 1] in rest then rest else rest + [xs[|xs| - 1]]
  }

  /** `currentLayersInMapIds`, as the array `[...set]` iterates it. */
  function LiveIds(ls: seq<Layer>): (ids: seq<string>)
    ensures forall i, j :: 0 <= i < j < |ids| ==> ids[i] != ids[j]
  {
    Dedup(RasterLayerIds(ls))
  }

  /** `newLayersToAdd`: the items whose id was not read off a raster layer. */
  function ToAdd(items: seq<VizItem>, live: seq<string>): (r: seq<VizItem>)
    ensures forall it :: it in r <==> it in items && it.id !in live
    ensures SubsequenceOf(r, items)
    decreases |items|
  {
    if |items| == 0 then []
    else
      var rest := ToAdd(items[1..], live);
      assert forall it :: it in items <==> it == items[0] || it in items[1..] by {
        assert items == [items[0]] + items[1..];
      }
      if items[0].id !in live then
        assert ([items[0]] + rest)[1..] == rest;
        [items[0]] + rest
      else rest
  }

  /** `itemsInViewPortId`. */
  function ItemIds(items: seq<VizItem>): (ids: set<string>)
    ensures forall x :: x in ids <==> exists it :: it in items && it.id == x
  {
    set it | it in items :: it.id
  }

  /** `layersToRemove`: the live ids no item in view has. */
  function ToRemove(live: seq<string>, items: seq<VizItem>): (r: seq<string>)
    ensures forall x :: x in r <==> x in live && x !in ItemIds(items)
    ensures SubsequenceOf(r, live)
    decreases |live|
  {
    if |live| == 0 then []
    else
      var rest := ToRemove(live[1..], items);
      assert forall x :: x in live <==> x == live[0] || x in live[1..] by {
        assert live == [live[0]] + live[1..];
      }
      if live[0] !in ItemIds(items) then
        assert ([live[0]] + rest)[1..] == rest;
        [live[0]] + rest
      else rest
  }

  /** Every item whose raster layer is on the map, with an id free of `-`,
      has its id among the live ids. */
  lemma PresentItemIsLive(ls: seq<Layer>, it: VizItem)
    requires '-' !in it.id && HasLayer(ls, GetLayerId("raster", it.id))
    ensures it.id in LiveIds(ls)
  {
    var name := GetLayerId("raster", it.id);
    var i :| 0 <= i < |ls| && ls[i].id == name;
    ContainsPrefix("raster-", it.id);
    assert IsRasterName(ls[i].id);
    IdOfRasterName(it.id);
  }

  /** Once every item in view (ids free of `-`) has its raster layer, the
      diff adds nothing. */
  lemma NothingToAdd(ls: seq<Layer>, items: seq<VizItem>)
    requires forall it :: it in items ==> '-' !in it.id && HasLayer(ls, GetLayerId("raster", it.id))
    ensures ToAdd(items, LiveIds(ls)) == []
  {
    var r := ToAdd(items, LiveIds(ls));
    if r != [] {
      PresentItemIsLive(ls, r[0]);
    }
  }

  /** Once every raster layer on the map belongs to an item in view (ids
      free of `-`), the diff removes nothing. */
  lemma NothingToRemove(ls: seq<Layer>, items: seq<VizItem>)
    requires forall it :: it in items ==> '-' !in it.id
    requires forall i :: 0 <= i < |ls| && IsRasterName(ls[i].id) ==>
      exists it :: it in items && ls[i].id == GetLayerId("raster", it.id)
    ensures ToRemove(LiveIds(ls), items) == []
  {
    var r := ToRemove(LiveIds(ls), items);
    forall x | x in LiveIds(ls) ensures x in ItemIds(items) {
      assert x in RasterLayerIds(ls);
      var i :| 0 <= i < |ls| && IsRasterName(ls[i].id) && '-' in ls[i].id && IdOfLayerName(ls[i].id) == x;
      var it :| it in items && ls[i].id == GetLayerId("raster", it.id);
      IdOfRasterName(it.id);
    }
    NoMembersEmpty(r);
  }

  lemma NoMembersEmpty<T>(r: seq<T>)
    ensures (forall x :: x !in r) ==> r == []
  {
    if |r| > 0 {
      assert r[0] in r;
    }
  }

  /** Idempotence: once the raster layers on the map are exactly those of
      the items in view, and no item id has a `-`, the diff is empty both
      ways. */
  lemma DiffIdempotent(ls: seq<Layer>, items: seq<VizItem>)
    requires forall it :: it in items ==> '-' !in it.id && HasLayer(ls, GetLayerId("raster", it.id))
    requires forall i :: 0 <= i < |ls| && IsRasterName(ls[i].id) ==>
      exists it :: it in items && ls[i].id == GetLayerId("raster", it.id)
    ensures ToAdd(items, LiveIds(ls)) == []
    ensures ToRemove(LiveIds(ls), items) == []
  {
    NothingToAdd(ls, items);
    NothingToRemove(ls, items);
  }

  /** A later `processLayers` on the same items adds again every item whose
      raster layer is missing: an item is re-added exactly when no raster
      layer name yields its id. */
  lemma ToAddExactlyMissing(ls: seq<Layer>, items: seq<VizItem>, it: VizItem)
    requires it in items && '-' !in it.id
    requires forall i :: 0 <= i < |ls| && IsRasterName(ls[i].id) ==>
      exists x :: '-' !in x && ls[i].id == GetLayerId("raster", x)
    ensures it in ToAdd(items, LiveIds(ls)) <==> !HasLayer(ls, GetLayerId("raster", it.id))
  {
    var live := LiveIds(ls);
    var name := GetLayerId("raster", it.id);
    IdOfRasterName(it.id);
    if HasLayer(ls, name) {
      var i :| 0 <= i < |ls| && ls[i].id == name;
      ContainsPrefix("raster-", it.id);
      assert IsRasterName(ls[i].id);
    }
    if it.id in live {
      var i :| 0 <= i < |ls| && IsRasterName(ls[i].id) && '-' in ls[i].id && IdOfLayerName(ls[i].id) == it.id;
      var x :| '-' !in x && ls[i].id == GetLayerId("raster", x);
      IdOfRasterName(x);
      assert x == it.id;
    }
  }

  // ---------------------------------------------------------------------
  // The handler registry

  type Registry = map<string, map<string, Handler>>

  /** `getEventHandler(layerId, eventType)`. */
  function GetEventHandler(reg: Registry, layerId: string, eventType: string): (r: Option<Handler>)
    ensures r.Some? <==> layerId in reg && eventType in reg[layerId]
    ensures r.Some? ==> r.value == reg[layerId][eventType]
  {
    if layerId in reg && eventType in reg[layerId] then Some(reg[layerId][eventType]) else None
  }

  /** The registry after `registerEventHandler(layerId, eventType, handler)`. */
  function Registered(reg: Registry, layerId: string, eventType: string, handler: Handler): Registry
  {
    var entry := if layerId in reg then reg[layerId] else map[];
    reg[layerId := entry[eventType := handler]]
  }

  /** One handler per layer and event: the new one replaces the old, and
      every other layer and event keeps what it had. */
  lemma RegisterOverwrites(reg: Registry, layerId: string, eventType: string, handler: Handler,
                           l: string, e: string)
    ensures GetEventHandler(Registered(reg, layerId, eventType, handler), layerId, eventType) == Some(handler)
    ensures (l, e) != (layerId, eventType) ==>
      GetEventHandler(Registered(reg, layerId, eventType, handler), l, e) == GetEventHandler(reg, l, e)
    ensures Registered(reg, layerId, eventType, handler).Keys == reg.Keys + {layerId}
  {
  }

  /** The three events every plume binds on its fill layer. */
  const Events: seq<string> := ["click", "mouseenter", "mouseleave"]

  /** The listeners `removeEventListeners` would unbind for a fill layer. */
  function RegisteredListeners(reg: Registry, fillId: string): (s: set<Listener>)
    ensures forall l :: l in s <==> (l.layerId == fillId && l.event in Events
      && GetEventHandler(reg, fillId, l.event) == Some(l.handler))
  {
    set e | e in Events && GetEventHandler(reg, fillId, e).Some? :: Listener(e, fillId, GetEventHandler(reg, fillId, e).value)
  }

  /** The listeners and registry entries one `VisualizationLayer` effect
      creates for an item. */
  function ItemHandlers(id: string, stamp: nat): (hs: seq<Handler>)
    ensures |hs| == 3
    ensures hs[0].action == ToggleRaster && hs[1].action == Highlight && hs[2].action == Unhighlight
    ensures forall k :: 0 <= k < 3 ==> hs[k].itemId == id && hs[k].stamp == stamp
  {
    [Handler(ToggleRaster, id, stamp), Handler(Highlight, id, stamp), Handler(Unhighlight, id, stamp)]
  }

  function ItemListeners(id: string, stamp: nat): set<Listener>
  {
    var f, hs := GetLayerId("fill", id), ItemHandlers(id, stamp);
    {Listener(Events[0], f, hs[0]), Listener(Events[1], f, hs[1]), Listener(Events[2], f, hs[2])}
  }

  function ItemRegistry(reg: Registry, id: string, stamp: nat): Registry
  {
    var f, hs := GetLayerId("fill", id), ItemHandlers(id, stamp);
    Registered(Registered(Registered(reg, f, Events[0], hs[0]), f, Events[1], hs[1]), f, Events[2], hs[2])
  }

  /** After an item's effect, the registry holds exactly the listeners the
      effect bound on its fill layer. */
  lemma ItemRegistryMatchesListeners(reg: Registry, id: string, stamp: nat)
    ensures RegisteredListeners(ItemRegistry(reg, id, stamp), GetLayerId("fill", id)) == ItemListeners(id, stamp)
  {
    var f := GetLayerId("fill", id);
    var r := ItemRegistry(reg, id, stamp);
    assert GetEventHandler(r, f, "click") == Some(ItemHandlers(id, stamp)[0]);
    assert GetEventHandler(r, f, "mouseenter") == Some(ItemHandlers(id, stamp)[1]);
    assert GetEventHandler(r, f, "mouseleave") == Some(ItemHandlers(id, stamp)[2]);
  }

  /** The fill ids of a list of item ids. */
  function FillIds(ids: seq<string>): set<string>
    decreases |ids|
  {
    if |ids| == 0 then {}
    else FillIds(ids[..|ids| - 1]) + {GetLayerId("fill", ids[|ids| - 1])}
  }

  lemma {:induction false} FillIdsMembers(ids: seq<string>, x: string)
    ensures x in FillIds(ids) <==> exists id :: id in ids && x == GetLayerId("fill", id)
    decreases |ids|
  {
    if |ids| > 0 {
      var init := ids[..|ids| - 1];
      FillIdsMembers(init, x);
      assert ids == init + [ids[|ids| - 1]];
      if x in FillIds(init) {
        var id :| id in init && x == GetLayerId("fill", id);
        assert id in ids;
      }
    }
  }

  /** All layer and source ids that belong to a list of item ids. */
  function AllItemLayerIds(ids: seq<string>): (s: set<string>)
    decreases |ids|
  {
    if |ids| == 0 then {}
    else AllItemLayerIds(ids[..|ids| - 1]) + ItemLayerIds(ids[|ids| - 1])
  }

  /** How the id sets grow by one item. */
  lemma PrefixStep(ids: seq<string>, k: nat)
    requires k < |ids|
    ensures AllItemLayerIds(ids[..k + 1]) == AllItemLayerIds(ids[..k]) + ItemLayerIds(ids[k])
    ensures FillIds(ids[..k + 1]) == FillIds(ids[..k]) + {GetLayerId("fill", ids[k])}
  {
    assert ids[..k + 1][..k] == ids[..k];
  }

  /** Hovering an outline and leaving it puts the width back to 2, which is
      what it was when the effect created it. */
  lemma HoverThenLeave(ls: seq<Layer>, id: string)
    requires forall l :: l in ls && l.id == GetLayerId("polygon", id) ==> l.lineWidth == Some(2)
    ensures WithLineWidth(WithLineWidth(ls, GetLayerId("polygon", id), 5), GetLayerId("polygon", id), 2) == ls
  {
    var p := GetLayerId("polygon", id);
    var r := WithLineWidth(WithLineWidth(ls, p, 5), p, 2);
    forall i | 0 <= i < |ls| ensures r[i] == ls[i] {
      if ls[i].id == p {
        assert ls[i] in ls;
      }
    }
  }

  /** The layers with ids outside `ids` are the same in both lists. */
  ghost predicate SameOutside(a: seq<Layer>, b: seq<Layer>, ids: set<string>) {
    forall l: Layer :: l.id !in ids ==> (l in a <==> l in b)
  }

  /** Between two map states only the layer and the source named `x` may
      differ. */
  ghost predicate TouchesOnly(ls0: seq<Layer>, ls1: seq<Layer>, s0: map<string, Source>, s1: map<string, Source>,
                              x: string) {
    && (forall q :: q != x ==> (HasLayer(ls1, q) <==> HasLayer(ls0, q)))
    && SameOutside(ls1, ls0, {x})
    && (forall y :: y != x ==> (y in s1 <==> y in s0))
  }

  // ---------------------------------------------------------------------
  // What the layer half of the effect does to the map's sources and layers

  /** `addSource` throws for `id`: the source exists and its layer does not. */
  predicate Throws(s: Surface, id: string) {
    id in s.sources && !HasLayer(s.layers, id)
  }

  /** `addSourceLayerToMap(map, VMIN, VMAX, colormap, assets, item, r, r)`
      with `r` the item's raster id. */
  function RasterAdded(s: Surface, raster: Source, item: VizItem): Surface {
    var r := GetLayerId("raster", item.id);
    Added(s, r, raster, RasterLayerFor(r, r))
  }

  /** `addSourcePolygonToMap(map, polygonGeometry, p, p, 2)` with `p` the
      item's polygon id. */
  function OutlineAdded(s: Surface, item: VizItem): Surface {
    var p := GetLayerId("polygon", item.id);
    Added(s, p, GeoJsonSource(FeatureData(item.polygonGeometry)), OutlineLayerFor(p, p, 2))
  }

  /** `addFillPolygonToMap(map, geometry, f, f)` with `f` the item's fill id. */
  function FillAdded(s: Surface, item: VizItem): Surface {
    var f := GetLayerId("fill", item.id);
    Added(s, f, GeoJsonSource(FeatureData(item.geometry)), FillLayerFor(f, f))
  }

  /** The effect gets past both GeoJSON adds. */
  predicate ItemCompletes(s: Surface, raster: Source, item: VizItem) {
    var s1 := RasterAdded(s, raster, item);
    !Throws(s1, GetLayerId("polygon", item.id)) && !Throws(OutlineAdded(s1, item), GetLayerId("fill", item.id))
  }

  /** The three adds in order, ending at the first that throws. */
  function ItemAdds(s: Surface, raster: Source, item: VizItem): Surface {
    var s2 := OutlineAdded(RasterAdded(s, raster, item), item);
    if Throws(RasterAdded(s, raster, item), GetLayerId("polygon", item.id)) then s2
    else FillAdded(s2, item)
  }

  /** The layer half of the effect: the three adds, then, when neither
      GeoJSON add threw, the raster made visible. */
  function ItemSurface(s: Surface, raster: Source, item: VizItem): Surface {
    var u := ItemAdds(s, raster, item);
    if ItemCompletes(s, raster, item)
    then Surface(u.sources, WithVisibility(u.layers, GetLayerId("raster", item.id), Visible))
    else u
  }

  /** The raster layer as the completed effect leaves it. */
  function ShownRaster(id: string): (l: Layer)
    ensures l.id == GetLayerId("raster", id) && l.layout == Some(Visible)
  {
    RasterLayerFor(GetLayerId("raster", id), GetLayerId("raster", id)).(layout := Some(Visible))
  }

  /** The three ids of an item differ in their first letter. */
  lemma ItemIdsDistinct(id: string)
    ensures GetLayerId("raster", id) != GetLayerId("polygon", id)
    ensures GetLayerId("raster", id) != GetLayerId("fill", id)
    ensures GetLayerId("polygon", id) != GetLayerId("fill", id)
  {
    var r, p, f := GetLayerId("raster", id), GetLayerId("polygon", id), GetLayerId("fill", id);
    assert r[0] != p[0] && r[0] != f[0] && p[0] != f[0];
  }

  /** The effect stops exactly when the outline's or the fill's source
      exists without its layer on the map it starts from. */
  lemma ItemCompletesIff(s: Surface, raster: Source, item: VizItem)
    ensures ItemCompletes(s, raster, item)
      <==> !Throws(s, GetLayerId("polygon", item.id)) && !Throws(s, GetLayerId("fill", item.id))
  {
    ItemIdsDistinct(item.id);
    var r, p, f := GetLayerId("raster", item.id), GetLayerId("polygon", item.id), GetLayerId("fill", item.id);
    var s1 := RasterAdded(s, raster, item);
    var s2 := OutlineAdded(s1, item);
    AddedFacts(s, r, raster, RasterLayerFor(r, r));
    AddedFacts(s1, p, GeoJsonSource(FeatureData(item.polygonGeometry)), OutlineLayerFor(p, p, 2));
    AddedFacts(s2, f, GeoJsonSource(FeatureData(item.geometry)), FillLayerFor(f, f));
  }

  /** The sources after the effect: every old one is kept, the new ones are
      the item's, a fresh raster id gets the item's raster source, a fresh
      polygon id its polygon, and, unless the outline threw, a fresh fill id
      its footprint. */
  lemma ItemSurfaceSources(s: Surface, raster: Source, item: VizItem)
    ensures var t, r, p, f := ItemSurface(s, raster, item), GetLayerId("raster", item.id),
                              GetLayerId("polygon", item.id), GetLayerId("fill", item.id);
      && (forall x :: x in s.sources ==> x in t.sources && t.sources[x] == s.sources[x])
      && (forall x :: x in t.sources && x !in s.sources ==> x in ItemLayerIds(item.id))
      && r in t.sources && (r !in s.sources ==> t.sources[r] == raster)
      && p in t.sources && (p !in s.sources ==> t.sources[p] == GeoJsonSource(FeatureData(item.polygonGeometry)))
      && (!Throws(s, p) ==>
            f in t.sources && (f !in s.sources ==> t.sources[f] == GeoJsonSource(FeatureData(item.geometry))))
      && (Throws(s, p) ==> (f in t.sources <==> f in s.sources))
  {
    ItemIdsDistinct(item.id);
    var r, p, f := GetLayerId("raster", item.id), GetLayerId("polygon", item.id), GetLayerId("fill", item.id);
    var s1 := RasterAdded(s, raster, item);
    var s2 := OutlineAdded(s1, item);
    var s3 := FillAdded(s2, item);
    AddedFacts(s, r, raster, RasterLayerFor(r, r));
    AddedFacts(s1, p, GeoJsonSource(FeatureData(item.polygonGeometry)), OutlineLayerFor(p, p, 2));
    AddedFacts(s2, f, GeoJsonSource(FeatureData(item.geometry)), FillLayerFor(f, f));
    assert Throws(s1, p) <==> Throws(s, p);
    assert ItemSurface(s, raster, item).sources == if Throws(s1, p) then s2.sources else s3.sources;
  }

  /** The adds keep the old layers below and put at most three on top,
      each the item's hidden raster, outline (width 2) or fill layer. */
  lemma ItemAddsLayers(s: Surface, raster: Source, item: VizItem)
    ensures var u, r, p, f := ItemAdds(s, raster, item), GetLayerId("raster", item.id),
                              GetLayerId("polygon", item.id), GetLayerId("fill", item.id);
      && s.layers <= u.layers && |u.layers| <= |s.layers| + 3
      && (forall j :: |s.layers| <= j < |u.layers| ==>
            u.layers[j] == RasterLayerFor(r, r) || u.layers[j] == OutlineLayerFor(p, p, 2)
            || u.layers[j] == FillLayerFor(f, f))
  {
    var r, p, f := GetLayerId("raster", item.id), GetLayerId("polygon", item.id), GetLayerId("fill", item.id);
    var s1 := RasterAdded(s, raster, item);
    var s2 := OutlineAdded(s1, item);
    var s3 := FillAdded(s2, item);
    AddedFacts(s, r, raster, RasterLayerFor(r, r));
    AddedFacts(s1, p, GeoJsonSource(FeatureData(item.polygonGeometry)), OutlineLayerFor(p, p, 2));
    AddedFacts(s2, f, GeoJsonSource(FeatureData(item.geometry)), FillLayerFor(f, f));
    assert OnTop(s.layers, s1.layers, {RasterLayerFor(r, r)});
    assert OnTop(s1.layers, s2.layers, {OutlineLayerFor(p, p, 2)});
    assert OnTop(s2.layers, s3.layers, {FillLayerFor(f, f)});
    OnTopTrans(s.layers, s1.layers, s2.layers, {RasterLayerFor(r, r)}, {OutlineLayerFor(p, p, 2)});
    OnTopTrans(s.layers, s2.layers, s3.layers, {RasterLayerFor(r, r), OutlineLayerFor(p, p, 2)}, {FillLayerFor(f, f)});
  }

  /** The layers after the effect: the old ones stay in place, those of the
      raster id made visible when the effect completes, and at most three
      go on top, each the item's raster, outline (width 2) or fill layer. */
  lemma ItemSurfaceLayers(s: Surface, raster: Source, item: VizItem)
    ensures var t, r, done := ItemSurface(s, raster, item), GetLayerId("raster", item.id),
                              ItemCompletes(s, raster, item);
      && |s.layers| <= |t.layers| <= |s.layers| + 3
      && (forall j :: 0 <= j < |s.layers| ==>
            t.layers[j] == if done && s.layers[j].id == r then s.layers[j].(layout := Some(Visible)) else s.layers[j])
      && (forall j :: |s.layers| <= j < |t.layers| ==>
            || t.layers[j] == (if done then ShownRaster(item.id) else RasterLayerFor(r, r))
            || t.layers[j] == OutlineLayerFor(GetLayerId("polygon", item.id), GetLayerId("polygon", item.id), 2)
            || t.layers[j] == FillLayerFor(GetLayerId("fill", item.id), GetLayerId("fill", item.id)))
  {
    ItemIdsDistinct(item.id);
    ItemAddsLayers(s, raster, item);
    var u := ItemAdds(s, raster, item);
    assert forall j :: 0 <= j < |s.layers| ==> u.layers[j] == s.layers[j];
  }

  /** The effect changes no layer of an id that is not the item's. */
  lemma ItemSurfaceSameOutside(s: Surface, raster: Source, item: VizItem)
    ensures SameOutside(ItemSurface(s, raster, item).layers, s.layers, ItemLayerIds(item.id))
  {
    ItemSurfaceLayers(s, raster, item);
    var t, r := ItemSurface(s, raster, item), GetLayerId("raster", item.id);
    forall l: Layer | l.id !in ItemLayerIds(item.id)
      ensures l in t.layers <==> l in s.layers
    {
      if l in t.layers {
        var j :| 0 <= j < |t.layers| && t.layers[j] == l;
        assert j < |s.layers| && s.layers[j] == l;
      }
      if l in s.layers {
        var j :| 0 <= j < |s.layers| && s.layers[j] == l;
        assert t.layers[j] == l;
      }
    }
  }

  /** Which ids have a layer after the effect: the raster's unless its
      source was there without it, the outline's unless likewise, the fill's
      unless likewise or the outline threw; other ids as before. When the
      effect completes, every raster layer of the item is visible. */
  lemma ItemSurfacePresence(s: Surface, raster: Source, item: VizItem)
    ensures var t, r, p, f := ItemSurface(s, raster, item), GetLayerId("raster", item.id),
                              GetLayerId("polygon", item.id), GetLayerId("fill", item.id);
      && (HasLayer(t.layers, r) <==> HasLayer(s.layers, r) || r !in s.sources)
      && (HasLayer(t.layers, p) <==> HasLayer(s.layers, p) || p !in s.sources)
      && (HasLayer(t.layers, f) <==> HasLayer(s.layers, f) || (f !in s.sources && !Throws(s, p)))
      && (forall q :: q !in ItemLayerIds(item.id) ==> (HasLayer(t.layers, q) <==> HasLayer(s.layers, q)))
      && (ItemCompletes(s, raster, item) ==>
            forall l :: l in t.layers && l.id == r ==> l.layout == Some(Visible))
  {
    ItemIdsDistinct(item.id);
    var r, p, f := GetLayerId("raster", item.id), GetLayerId("polygon", item.id), GetLayerId("fill", item.id);
    var s1 := RasterAdded(s, raster, item);
    var s2 := OutlineAdded(s1, item);
    var s3 := FillAdded(s2, item);
    AddedFacts(s, r, raster, RasterLayerFor(r, r));
    AddedFacts(s1, p, GeoJsonSource(FeatureData(item.polygonGeometry)), OutlineLayerFor(p, p, 2));
    AddedFacts(s2, f, GeoJsonSource(FeatureData(item.geometry)), FillLayerFor(f, f));
    if !Throws(s1, p) && !Throws(s2, f) {
      VisibilityFacts(s3.layers, r, Visible);
    }
  }

  /** A layer id the item had no layer of before ends up with only the
      layer the effect adds: the outline is `OutlineLayerFor(p, p, 2)`, so
      its width starts at 2, and the fill is `FillLayerFor(f, f)`. */
  lemma ItemSurfaceFreshLayers(s: Surface, raster: Source, item: VizItem)
    ensures var t, p, f := ItemSurface(s, raster, item), GetLayerId("polygon", item.id),
                           GetLayerId("fill", item.id);
      && (!HasLayer(s.layers, p) ==> forall l :: l in t.layers && l.id == p ==> l == OutlineLayerFor(p, p, 2))
      && (!HasLayer(s.layers, f) ==> forall l :: l in t.layers && l.id == f ==> l == FillLayerFor(f, f))
  {
    ItemIdsDistinct(item.id);
    ItemSurfaceLayers(s, raster, item);
    var t, r, p, f := ItemSurface(s, raster, item), GetLayerId("raster", item.id),
                      GetLayerId("polygon", item.id), GetLayerId("fill", item.id);
    forall l | l in t.layers && (l.id == p || l.id == f)
      ensures l.id == p && !HasLayer(s.layers, p) ==> l == OutlineLayerFor(p, p, 2)
      ensures l.id == f && !HasLayer(s.layers, f) ==> l == FillLayerFor(f, f)
    {
      var j :| 0 <= j < |t.layers| && t.layers[j] == l;
      if j < |s.layers| {
        assert t.layers[j].id == s.layers[j].id;
      }
    }
  }

  /** On a map with none of the item's sources or layers the effect
      completes, adds the three sources, and puts the visible raster, the
      width-2 outline and the fill on top, in that order. */
  lemma FreshItemSurface(s: Surface, raster: Source, item: VizItem)
    requires forall x :: x in ItemLayerIds(item.id) ==> x !in s.sources && !HasLayer(s.layers, x)
    ensures ItemCompletes(s, raster, item)
    ensures var r, p, f := GetLayerId("raster", item.id), GetLayerId("polygon", item.id), GetLayerId("fill", item.id);
      ItemSurface(s, raster, item) == Surface(
        s.sources[r := raster][p := GeoJsonSource(FeatureData(item.polygonGeometry))]
                 [f := GeoJsonSource(FeatureData(item.geometry))],
        s.layers + [ShownRaster(item.id), OutlineLayerFor(p, p, 2), FillLayerFor(f, f)])
  {
    ItemIdsDistinct(item.id);
    var r, p, f := GetLayerId("raster", item.id), GetLayerId("polygon", item.id), GetLayerId("fill", item.id);
    var s1 := RasterAdded(s, raster, item);
    var s2 := OutlineAdded(s1, item);
    AddedFacts(s, r, raster, RasterLayerFor(r, r));
    AddedFacts(s1, p, GeoJsonSource(FeatureData(item.polygonGeometry)), OutlineLayerFor(p, p, 2));
    var ls := s.layers + [RasterLayerFor(r, r), OutlineLayerFor(p, p, 2), FillLayerFor(f, f)];
    assert ItemAdds(s, raster, item).layers == ls;
    var want := s.layers + [ShownRaster(item.id), OutlineLayerFor(p, p, 2), FillLayerFor(f, f)];
    forall j | 0 <= j < |s.layers| ensures s.layers[j].id != r {
      assert !HasLayer(s.layers, r);
    }
    assert WithVisibility(ls, r, Visible) == want;
  }

  /** `addSourceLayerToMap` for the item's raster: touches only `raster-<id>`. */
  method RasterStep(m: Map, style: RasterStyle, item: VizItem, rasterApiUrl: string)
    requires m.Valid()
    modifies m
    ensures m.Valid()
    ensures m.listeners == old(m.listeners) && m.styleLoaded == old(m.styleLoaded)
      && m.onStyleLoad == old(m.onStyleLoad)
    ensures TouchesOnly(old(m.layers), m.layers, old(m.sources), m.sources, GetLayerId("raster", item.id))
    ensures Surface(m.sources, m.layers) == RasterAdded(Surface(old(m.sources), old(m.layers)), RasterSourceFor(style, item, rasterApiUrl), item)
  {
    var r := GetLayerId("raster", item.id);
    PushFacts(m.layers, RasterLayerFor(r, r));
    AddSourceLayerToMap(m, style, item, r, r, rasterApiUrl);
  }

  /** `addSourcePolygonToMap` with width 2 for the item's outline. */
  method OutlineStep(m: Map, item: VizItem) returns (ok: bool)
    requires m.Valid()
    modifies m
    ensures m.Valid()
    ensures m.listeners == old(m.listeners) && m.styleLoaded == old(m.styleLoaded)
      && m.onStyleLoad == old(m.onStyleLoad)
    ensures var p := GetLayerId("polygon", item.id);
      && TouchesOnly(old(m.layers), m.layers, old(m.sources), m.sources, p)
      && (ok <==> HasLayer(old(m.layers), p) || p !in old(m.sources))
      && (ok ==> HasLayer(m.layers, p))
    ensures Surface(m.sources, m.layers) == OutlineAdded(Surface(old(m.sources), old(m.layers)), item)
  {
    var p := GetLayerId("polygon", item.id);
    PushFacts(m.layers, OutlineLayerFor(p, p, 2));
    ok := AddSourcePolygonToMap(m, FeatureData(item.polygonGeometry), p, p, 2);
  }

  /** `addFillPolygonToMap` for the item's hit-testing layer. */
  method FillStep(m: Map, item: VizItem) returns (ok: bool)
    requires m.Valid()
    modifies m
    ensures m.Valid()
    ensures m.listeners == old(m.listeners) && m.styleLoaded == old(m.styleLoaded)
      && m.onStyleLoad == old(m.onStyleLoad)
    ensures var f := GetLayerId("fill", item.id);
      && TouchesOnly(old(m.layers), m.layers, old(m.sources), m.sources, f)
      && (ok <==> HasLayer(old(m.layers), f) || f !in old(m.sources))
      && (ok ==> HasLayer(m.layers, f))
    ensures Surface(m.sources, m.layers) == FillAdded(Surface(old(m.sources), old(m.layers)), item)
  {
    var f := GetLayerId("fill", item.id);
    PushFacts(m.layers, FillLayerFor(f, f));
    ok := AddFillPolygonToMap(m, FeatureData(item.geometry), f, f);
  }

  /** The layer half of the `VisualizationLayer` effect:
      `addSourceLayerToMap`, `addSourcePolygonToMap` with width 2 and
      `addFillPolygonToMap`, then the raster is made visible. `ok` is false
      when the outline or the fill add threw (its source existed without
      its layer), which stops the effect there. */
  method AddItemLayers(m: Map, style: RasterStyle, item: VizItem, rasterApiUrl: string) returns (ok: bool)
    requires m.Valid() && item.id != ""
    modifies m
    ensures m.Valid()
    ensures m.listeners == old(m.listeners) && m.styleLoaded == old(m.styleLoaded)
      && m.onStyleLoad == old(m.onStyleLoad)
    ensures var p, f := GetLayerId("polygon", item.id), GetLayerId("fill", item.id);
      && (ok <==> !(p in old(m.sources) && !HasLayer(old(m.layers), p))
                  && !(f in old(m.sources) && !HasLayer(old(m.layers), f)))
      && (ok ==> HasLayer(m.layers, p) && HasLayer(m.layers, f))
      && (ok ==> forall l :: l in m.layers && l.id == GetLayerId("raster", item.id) ==> l.layout == Some(Visible))
      && SameOutside(m.layers, old(m.layers), ItemLayerIds(item.id))
    ensures ok == ItemCompletes(Surface(old(m.sources), old(m.layers)), RasterSourceFor(style, item, rasterApiUrl), item)
    ensures Surface(m.sources, m.layers) == ItemSurface(Surface(old(m.sources), old(m.layers)), RasterSourceFor(style, item, rasterApiUrl), item)
  {
    ghost var s0 := Surface(m.sources, m.layers);
    ok := ApplyItemSurface(m, style, item, rasterApiUrl);
    ItemCompletesIff(s0, RasterSourceFor(style, item, rasterApiUrl), item);
    ItemSurfacePresence(s0, RasterSourceFor(style, item, rasterApiUrl), item);
    ItemSurfaceSameOutside(s0, RasterSourceFor(style, item, rasterApiUrl), item);
  }

  /** The calls of `AddItemLayers`, against `ItemSurface`. */
  method ApplyItemSurface(m: Map, style: RasterStyle, item: VizItem, rasterApiUrl: string) returns (ok: bool)
    requires m.Valid()
    modifies m
    ensures m.Valid()
    ensures m.listeners == old(m.listeners) && m.styleLoaded == old(m.styleLoaded)
      && m.onStyleLoad == old(m.onStyleLoad)
    ensures ok == ItemCompletes(Surface(old(m.sources), old(m.layers)), RasterSourceFor(style, item, rasterApiUrl), item)
    ensures Surface(m.sources, m.layers) == ItemSurface(Surface(old(m.sources), old(m.layers)), RasterSourceFor(style, item, rasterApiUrl), item)
  {
    ok := ApplyItemAdds(m, style, item, rasterApiUrl);
    if ok {
      m.SetVisibility(GetLayerId("raster", item.id), Visible);
    }
  }

  /** The three adds, against `ItemAdds`. */
  method ApplyItemAdds(m: Map, style: RasterStyle, item: VizItem, rasterApiUrl: string) returns (ok: bool)
    requires m.Valid()
    modifies m
    ensures m.Valid()
    ensures m.listeners == old(m.listeners) && m.styleLoaded == old(m.styleLoaded)
      && m.onStyleLoad == old(m.onStyleLoad)
    ensures ok == ItemCompletes(Surface(old(m.sources), old(m.layers)), RasterSourceFor(style, item, rasterApiUrl), item)
    ensures Surface(m.sources, m.layers) == ItemAdds(Surface(old(m.sources), old(m.layers)), RasterSourceFor(style, item, rasterApiUrl), item)
  {
    RasterStep(m, style, item, rasterApiUrl);
    ghost var s1 := Surface(m.sources, m.layers);
    ok := OutlineStep(m, item);
    assert ok == !Throws(s1, GetLayerId("polygon", item.id));
    if !ok {
      return;
    }
    ghost var s2 := Surface(m.sources, m.layers);
    ok := FillStep(m, item);
    assert ok == !Throws(s2, GetLayerId("fill", item.id));
  }

  // ---------------------------------------------------------------------

  /** The state of `VisualizationLayers`: the handler registry (a ref) and
      the `layersToAdd` state. */
  class VisualizationLayers {
    var registry: Registry
    var layersToAdd: seq<VizItem>

    constructor ()
      ensures registry == map[] && layersToAdd == []
    {
      registry := map[];
      layersToAdd := [];
    }

    /** `registerEventHandler(layerId, eventType, handler)`. */
    method RegisterEventHandler(layerId: string, eventType: string, handler: Handler)
      modifies this`registry
      ensures registry == Registered(old(registry), layerId, eventType, handler)
    {
      if layerId !in registry {
        registry := registry[layerId := map[]];
      }
      registry := registry[layerId := registry[layerId][eventType := handler]];
    }

    /** `clearEventHandlers(layerId)`. */
    method ClearEventHandlers(layerId: string)
      modifies this`registry
      ensures registry == old(registry) - {layerId}
    {
      registry := registry - {layerId};
    }

    /** `removeEventListeners(vizItemId)`: the registered handlers are
        unbound only while the fill layer still exists; the registry entry
        goes in every case. */
    method RemoveEventListeners(m: Map, id: string)
      modifies this`registry, m`listeners
      ensures registry == old(registry) - {GetLayerId("fill", id)}
      ensures m.listeners == if HasLayer(m.layers, GetLayerId("fill", id))
        then old(m.listeners) - RegisteredListeners(old(registry), GetLayerId("fill", id))
        else old(m.listeners)
    {
      var fillId := GetLayerId("fill", id);
      var clickHandler := GetEventHandler(registry, fillId, "click");
      var hoverHandler := GetEventHandler(registry, fillId, "mouseenter");
      var hoverClearHandler := GetEventHandler(registry, fillId, "mouseleave");
      if m.LayerExists(fillId) {
        if clickHandler.Some? { m.Off("click", fillId, clickHandler.value); }
        if hoverHandler.Some? { m.Off("mouseenter", fillId, hoverHandler.value); }
        if hoverClearHandler.Some? { m.Off("mouseleave", fillId, hoverClearHandler.value); }
        ghost var gone := (if clickHandler.Some? then {Listener("click", fillId, clickHandler.value)} else {})
          + (if hoverHandler.Some? then {Listener("mouseenter", fillId, hoverHandler.value)} else {})
          + (if hoverClearHandler.Some? then {Listener("mouseleave", fillId, hoverClearHandler.value)} else {});
        assert RegisteredListeners(old(registry), fillId) == gone;
      }
      ClearEventHandlers(fillId);
    }

    /** One round of `removeLayers`: `handleRemoveLayer(id)` and then
        `removeEventListeners(id)`, which finds the fill layer gone. */
    method RemoveItem(m: Map, id: string)
      requires m.Valid()
      modifies this`registry, m
      ensures m.Valid()
      ensures m.listeners == old(m.listeners)
      ensures registry == old(registry) - {GetLayerId("fill", id)}
      ensures m.layers == Without(old(m.layers), ItemLayerIds(id))
      ensures m.sources == old(m.sources) - ItemLayerIds(id)
      ensures m.styleLoaded == old(m.styleLoaded) && m.onStyleLoad == old(m.onStyleLoad)
    {
      HandleRemoveLayer(m, id);
      var f := GetLayerId("fill", id);
      assert !HasLayer(m.layers, f) by {
        forall i | 0 <= i < |m.layers| ensures m.layers[i].id != f {
          assert m.layers[i] in m.layers;
        }
      }
      RemoveEventListeners(m, id);
    }

    /** One round of the `removeLayers` loop, stated against what the
        rounds before it removed. */
    method RemoveNext(m: Map, ids: seq<string>, k: nat, ghost ls0: seq<Layer>,
                      ghost src0: map<string, Source>, ghost reg0: map<string, map<string, Handler>>)
      requires k < |ids| && m.Valid()
      requires registry == reg0 - FillIds(ids[..k])
      requires m.layers == Without(ls0, AllItemLayerIds(ids[..k]))
      requires m.sources == src0 - AllItemLayerIds(ids[..k])
      modifies this`registry, m
      ensures m.Valid()
      ensures m.listeners == old(m.listeners)
      ensures registry == reg0 - FillIds(ids[..k + 1])
      ensures m.layers == Without(ls0, AllItemLayerIds(ids[..k + 1]))
      ensures m.sources == src0 - AllItemLayerIds(ids[..k + 1])
      ensures m.styleLoaded == old(m.styleLoaded) && m.onStyleLoad == old(m.onStyleLoad)
    {
      RemoveItem(m, ids[k]);
      PrefixStep(ids, k);
      WithoutTwice(ls0, AllItemLayerIds(ids[..k]), ItemLayerIds(ids[k]));
      MinusTwice(src0, AllItemLayerIds(ids[..k]), ItemLayerIds(ids[k]));
      MinusTwice(reg0, FillIds(ids[..k]), {GetLayerId("fill", ids[k])});
    }

    /** `removeLayers(layersToRemove)`: for each id, the plume's layers and
        sources go first, so the fill layer is already gone when
        `removeEventListeners` checks for it and no listener is unbound. */
    method RemoveLayers(m: Map, ids: seq<string>)
      requires m.Valid()
      modifies this`registry, m
      ensures m.Valid()
      ensures m.listeners == old(m.listeners)
      ensures registry == old(registry) - FillIds(ids)
      ensures m.layers == Without(old(m.layers), AllItemLayerIds(ids))
      ensures m.sources == old(m.sources) - AllItemLayerIds(ids)
      ensures m.styleLoaded == old(m.styleLoaded) && m.onStyleLoad == old(m.onStyleLoad)
    {
      ghost var ls0, src0, reg0 := m.layers, m.sources, registry;
      WithoutNothing(ls0, {});
      var k := 0;
      while k < |ids|
        invariant 0 <= k <= |ids|
        invariant m.Valid()
        invariant m.listeners == old(m.listeners)
        invariant registry == reg0 - FillIds(ids[..k])
        invariant m.layers == Without(ls0, AllItemLayerIds(ids[..k]))
        invariant m.sources == src0 - AllItemLayerIds(ids[..k])
        invariant m.styleLoaded == old(m.styleLoaded) && m.onStyleLoad == old(m.onStyleLoad)
      {
        RemoveNext(m, ids, k, ls0, src0, reg0);
        k := k + 1;
      }
      assert ids[..k] == ids;
    }

    /** The `processLayers` effect: `layersToAdd` becomes the items whose
        raster layer is missing, and the ids no item in view has lose their
        layers. Nothing happens without a map. */
    method ProcessLayers(m: Map?, vizItems: seq<VizItem>)
      requires m != null ==> m.Valid()
      modifies this`registry, this`layersToAdd, m
      ensures m != null ==> m.Valid()
      ensures m == null ==> registry == old(registry) && layersToAdd == old(layersToAdd)
      ensures m != null ==> layersToAdd == ToAdd(vizItems, LiveIds(old(m.layers)))
      ensures m != null ==> (m.listeners == old(m.listeners)
        && registry == old(registry) - FillIds(ToRemove(LiveIds(old(m.layers)), vizItems))
        && m.layers == Without(old(m.layers), AllItemLayerIds(ToRemove(LiveIds(old(m.layers)), vizItems)))
        && m.sources == old(m.sources) - AllItemLayerIds(ToRemove(LiveIds(old(m.layers)), vizItems))
        && m.styleLoaded == old(m.styleLoaded) && m.onStyleLoad == old(m.onStyleLoad))
    {
      if m == null {
        return;
      }
      var live := LiveIds(m.layers);
      layersToAdd := ToAdd(vizItems, live);
      var layersToRemove := ToRemove(live, vizItems);
      if |layersToRemove| > 0 {
        RemoveLayers(m, layersToRemove);
      } else {
        WithoutNothing(m.layers, {});
      }
    }

    /** The `VisualizationLayer` effect for one item, with `stamp` telling
        apart the closures of this run. It adds the layers (see
        `AddItemLayers`), then binds and registers the click, mouseenter and
        mouseleave handlers on the fill layer. `completed` is false when the
        outline or fill add threw, which ends the effect before any handler
        is bound. Nothing happens without a map or an id. */
    method AddVisualization(m: Map?, style: RasterStyle, item: VizItem, rasterApiUrl: string, stamp: nat)
      returns (completed: bool)
      requires m != null ==> m.Valid()
      modifies this`registry, m
      ensures m != null ==> m.Valid()
      ensures m == null || item.id == "" ==> completed && registry == old(registry)
      ensures m != null ==> m.styleLoaded == old(m.styleLoaded) && m.onStyleLoad == old(m.onStyleLoad)
      ensures m != null && item.id == "" ==> (m.layers == old(m.layers) && m.sources == old(m.sources)
        && m.listeners == old(m.listeners))
      ensures m != null && item.id != "" ==>
        && completed == ItemCompletes(Surface(old(m.sources), old(m.layers)), RasterSourceFor(style, item, rasterApiUrl), item)
        && Surface(m.sources, m.layers)
             == ItemSurface(Surface(old(m.sources), old(m.layers)), RasterSourceFor(style, item, rasterApiUrl), item)
      ensures m != null && item.id != "" ==>
        var p, f := GetLayerId("polygon", item.id), GetLayerId("fill", item.id);
        && (completed <==> !(p in old(m.sources) && !HasLayer(old(m.layers), p))
                           && !(f in old(m.sources) && !HasLayer(old(m.layers), f)))
        && (completed ==> HasLayer(m.layers, p) && HasLayer(m.layers, f))
        && (completed ==> m.listeners == old(m.listeners) + ItemListeners(item.id, stamp))
        && (completed ==> registry == ItemRegistry(old(registry), item.id, stamp))
        && (!completed ==> m.listeners == old(m.listeners) && registry == old(registry))
        && (completed ==> forall l :: l in m.layers && l.id == GetLayerId("raster", item.id) ==>
              l.layout == Some(Visible))
        && SameOutside(m.layers, old(m.layers), ItemLayerIds(item.id))
    {
      if m == null || item.id == "" {
        return true;
      }
      completed := AddItemLayers(m, style, item, rasterApiUrl);
      if completed {
        BindHandlers(m, item.id, stamp);
      }
    }

    /** The binding half of the effect: three `map.on` calls on the fill
        layer, then the same three handlers registered. */
    method BindHandlers(m: Map, id: string, stamp: nat)
      modifies this`registry, m`listeners
      ensures m.listeners == old(m.listeners) + ItemListeners(id, stamp)
      ensures registry == ItemRegistry(old(registry), id, stamp)
    {
      var f, hs := GetLayerId("fill", id), ItemHandlers(id, stamp);
      m.On("click", f, hs[0]);
      m.On("mouseenter", f, hs[1]);
      m.On("mouseleave", f, hs[2]);
      RegisterEventHandler(f, "click", hs[0]);
      RegisterEventHandler(f, "mouseenter", hs[1]);
      RegisterEventHandler(f, "mouseleave", hs[2]);
    }

    /** What a bound handler does to the map when its event fires: the
        click toggles the plume's raster, mouseenter widens its outline to
        5 and mouseleave narrows it to 2. The hover callback only reports
        the id to the page. */
    method FireHandler(m: Map, h: Handler)
      requires m.Valid()
      modifies m
      ensures m.Valid()
      ensures m.sources == old(m.sources) && m.listeners == old(m.listeners)
      ensures m.styleLoaded == old(m.styleLoaded) && m.onStyleLoad == old(m.onStyleLoad)
      ensures h.action == ToggleRaster ==> m.layers == ClickedLayers(old(m.layers), h.itemId)
      ensures h.action == Highlight ==> m.layers == WithLineWidth(old(m.layers), GetLayerId("polygon", h.itemId), 5)
      ensures h.action == Unhighlight ==> m.layers == WithLineWidth(old(m.layers), GetLayerId("polygon", h.itemId), 2)
    {
      match h.action {
        case ToggleRaster => HandleClickedOnLayer(m, h.itemId);
        case Highlight => m.SetLineWidth(GetLayerId("polygon", h.itemId), 5);
        case Unhighlight => m.SetLineWidth(GetLayerId("polygon", h.itemId), 2);
      }
    }
  }

  /** Adding an item to a map that has none of its layers and then hovering
      and leaving its fill leaves exactly the three freshly added layers on
      top: the width the effect gives the outline is the one mouseleave
      restores. */
  method HoverAfterAdd(v: VisualizationLayers, m: Map, style: RasterStyle, item: VizItem,
                       rasterApiUrl: string, stamp: nat)
    requires m.Valid() && item.id != ""
    requires forall x :: x in ItemLayerIds(item.id) ==> x !in m.sources && !HasLayer(m.layers, x)
    modifies v`registry, m
    ensures m.Valid()
    ensures var p, f := GetLayerId("polygon", item.id), GetLayerId("fill", item.id);
      m.layers == old(m.layers) + [ShownRaster(item.id), OutlineLayerFor(p, p, 2), FillLayerFor(f, f)]
    ensures m.listeners == old(m.listeners) + ItemListeners(item.id, stamp)
  {
    var completed := v.AddVisualization(m, style, item, rasterApiUrl, stamp);
    ghost var s0 := Surface(old(m.sources), old(m.layers));
    FreshItemSurface(s0, RasterSourceFor(style, item, rasterApiUrl), item);
    ItemSurfaceFreshLayers(s0, RasterSourceFor(style, item, rasterApiUrl), item);
    ghost var added := m.layers;
    v.FireHandler(m, Handler(Highlight, item.id, stamp));
    v.FireHandler(m, Handler(Unhighlight, item.id, stamp));
    HoverThenLeave(added, item.id);
  }

  /** Because `removeLayers` never unbinds, the listeners of a removed item
      outlive its layers: when the item comes back into view and its effect
      runs again, its fill layer carries both generations of handlers, and
      the registry only knows the new one, so the old click handler can no
      longer be unbound. */
  method StaleListenersSurvive(v: VisualizationLayers, m: Map, style: RasterStyle, item: VizItem,
                               rasterApiUrl: string, s1: nat, s2: nat)
    requires m.Valid() && item.id != "" && s1 != s2
    requires ItemListeners(item.id, s1) <= m.listeners
    modifies v`registry, m
    ensures m.Valid()
    ensures ItemListeners(item.id, s1) + ItemListeners(item.id, s2) <= m.listeners
    ensures v.registry == ItemRegistry(old(v.registry) - {GetLayerId("fill", item.id)}, item.id, s2)
    ensures RegisteredListeners(v.registry, GetLayerId("fill", item.id)) == ItemListeners(item.id, s2)
    ensures Listener("click", GetLayerId("fill", item.id), Handler(ToggleRaster, item.id, s1)) in m.listeners
    ensures Listener("click", GetLayerId("fill", item.id), Handler(ToggleRaster, item.id, s1))
      !in RegisteredListeners(v.registry, GetLayerId("fill", item.id))
  {
    var ids := [item.id];
    assert ids[..0] == [];
    assert AllItemLayerIds(ids) == ItemLayerIds(item.id);
    assert FillIds(ids) == {GetLayerId("fill", item.id)};
    v.RemoveLayers(m, ids);
    var completed := v.AddVisualization(m, style, item, rasterApiUrl, s2);
    ItemRegistryMatchesListeners(old(v.registry) - {GetLayerId("fill", item.id)}, item.id, s2);
  }
}
