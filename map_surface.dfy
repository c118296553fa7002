/** The Mapbox map as the application sees it: the sources, the ordered style
    layers, the event listeners and whether the style has loaded. Only the
    behaviour of the Mapbox calls the application makes is modelled:
    - `addSource` throws when the id is taken (`AddSource` returns false);
    - `addLayer` with a taken id reports an error event and adds nothing;
    - `removeLayer`, `setLayoutProperty`, `setPaintProperty` and `moveLayer`
      on a missing layer change nothing;
    - `on`/`off` add and remove one `(event, layer, handler)` listener. */
module MapSurface {
  import opened Wrappers
  import opened Geo

  datatype LayerKind = RasterKind | LineKind | FillKind | CircleKind | SymbolKind

  /** The `visibility` layout property; `Hidden` is `'none'`, `Unset` is `undefined`. */
  datatype Visibility = Visible | Hidden | Unset

  /** A style layer as `map.getStyle().layers` lists it. `layout` is `None`
      when the layer has no layout object (Mapbox omits an empty one);
      `lineWidth` is the `line-width` paint property. */
  datatype Layer = Layer(
    id: string,
    kind: LayerKind,
    source: string,
    layout: Option<Visibility>,
    lineWidth: Option<int>)

  datatype GeoJson = FeatureData(geometry: Option<Geometry>) | CollectionData(geometries: seq<Option<Geometry>>)

  datatype Source =
    | RasterSource(tiles: seq<string>, tileSize: nat, bounds: Option<seq<real>>)
    | GeoJsonSource(data: GeoJson)

  /** What a handler closure does when it fires. */
  datatype Action = ToggleRaster | Highlight | Unhighlight

  /** A handler closure: its behaviour, the item it was created for, and a
      stamp that tells apart the closures made by different effect runs. */
  datatype Handler = Handler(action: Action, itemId: string, stamp: nat)

  datatype Listener = Listener(event: string, layerId: string, handler: Handler)

  /** A call queued with `map.once('style.load', …)`. */
  datatype DeferredCall = AddCoverage(sourceId: string, layerId: string, data: GeoJson)

  /** The map's sources and layers taken together, as a value. */
  datatype Surface = Surface(sources: map<string, Source>, layers: seq<Layer>)

  // ---------------------------------------------------------------------
  // The layer list and the functions that describe each Mapbox update of it

  predicate HasLayer(ls: seq<Layer>, id: string) {
    exists i :: 0 <= i < |ls| && ls[i].id == id
  }

  /** Mapbox keeps layer ids unique. */
  predicate UniqueIds(ls: seq<Layer>) {
    forall i, j :: 0 <= i < j < |ls| ==> ls[i].id != ls[j].id
  }

  /** `map.getLayer(id)`. */
  function Find(ls: seq<Layer>, id: string): (r: Option<Layer>)
    ensures r.Some? <==> HasLayer(ls, id)
    ensures r.Some? ==> r.value in ls && r.value.id == id
    decreases |ls|
  {
    if |ls| == 0 then None
    else if ls[0].id == id then Some(ls[0])
    else
      var r := Find(ls[1..], id);
      assert HasLayer(ls, id) ==> ls[0].id == id || HasLayer(ls[1..], id) by {
        if HasLayer(ls, id) {
          var i :| 0 <= i < |ls| && ls[i].id == id;
          if i > 0 { assert ls[1..][i - 1].id == id; }
        }
      }
      r
  }

  /** Position of a layer in the list. */
  function IndexOf(ls: seq<Layer>, id: string): (k: nat)
    requires HasLayer(ls, id)
    ensures k < |ls| && ls[k].id == id
    ensures forall i :: 0 <= i < k ==> ls[i].id != id
    decreases |ls|
  {
    if ls[0].id == id then 0
    else
      assert HasLayer(ls[1..], id) by {
        var i :| 0 <= i < |ls| && ls[i].id == id;
        assert ls[1..][i - 1].id == id;
      }
      1 + IndexOf(ls[1..], id)
  }

  /** The list after removing every layer whose id is in `ids`. */
  function Without(ls: seq<Layer>, ids: set<string>): (r: seq<Layer>)
    ensures |r| <= |ls|
    ensures forall l :: l in r <==> l in ls && l.id !in ids
    decreases |ls|
  {
    if |ls| == 0 then []
    else (if ls[0].id in ids then [] else [ls[0]]) + Without(ls[1..], ids)
  }

  /** The list after `setLayoutProperty(id, 'visibility', v)`. */
  function WithVisibility(ls: seq<Layer>, id: string, v: Visibility): (r: seq<Layer>)
    ensures |r| == |ls|
    ensures forall i :: 0 <= i < |ls| ==> r[i] == if ls[i].id == id then ls[i].(layout := Some(v)) else ls[i]
  {
    seq(|ls|, i requires 0 <= i < |ls| => if ls[i].id == id then ls[i].(layout := Some(v)) else ls[i])
  }

  /** A visibility change keeps which ids are present and every layer of
      another id, and gives each layer of `id` the new visibility. */
  lemma VisibilityFacts(ls: seq<Layer>, id: string, v: Visibility)
    ensures forall q :: HasLayer(WithVisibility(ls, id, v), q) <==> HasLayer(ls, q)
    ensures forall l: Layer :: l.id != id ==> (l in WithVisibility(ls, id, v) <==> l in ls)
    ensures forall l :: l in WithVisibility(ls, id, v) && l.id == id ==> l.layout == Some(v)
  {
    var r := WithVisibility(ls, id, v);
    forall q | HasLayer(r, q) ensures HasLayer(ls, q) {
      var i :| 0 <= i < |r| && r[i].id == q;
      assert ls[i].id == q;
    }
    forall q | HasLayer(ls, q) ensures HasLayer(r, q) {
      var i :| 0 <= i < |ls| && ls[i].id == q;
      assert r[i].id == q;
    }
    forall l: Layer | l.id != id && l in r ensures l in ls {
      var i :| 0 <= i < |r| && r[i] == l;
      assert ls[i] == l;
    }
    forall l: Layer | l.id != id && l in ls ensures l in r {
      var i :| 0 <= i < |ls| && ls[i] == l;
      assert r[i] == l;
    }
  }

  /** The list after `setPaintProperty(id, 'line-width', w)`. */
  function WithLineWidth(ls: seq<Layer>, id: string, w: int): (r: seq<Layer>)
    ensures |r| == |ls|
    ensures forall i :: 0 <= i < |ls| ==> r[i] == if ls[i].id == id then ls[i].(lineWidth := Some(w)) else ls[i]
  {
    seq(|ls|, i requires 0 <= i < |ls| => if ls[i].id == id then ls[i].(lineWidth := Some(w)) else ls[i])
  }

  /** The list after `moveLayer(id, before)`: the layer is taken out and put
      back directly in front of `before`. */
  function MoveBefore(ls: seq<Layer>, id: string, before: string): seq<Layer>
  {
    if id == before || !HasLayer(ls, id) || !HasLayer(ls, before) then ls
    else
      var moved := ls[IndexOf(ls, id)];
      var rest := Without(ls, {id});
      assert HasLayer(rest, before) by {
        var k := IndexOf(ls, before);
        assert ls[k] in rest;
        var j :| 0 <= j < |rest| && rest[j] == ls[k];
      }
      var k := IndexOf(rest, before);
      rest[..k] + [moved] + rest[k..]
  }

  lemma WithoutKeepsUnique(ls: seq<Layer>, ids: set<string>)
    requires UniqueIds(ls)
    ensures UniqueIds(Without(ls, ids))
    decreases |ls|
  {
    if |ls| > 0 {
      WithoutKeepsUnique(ls[1..], ids);
      var rest := Without(ls[1..], ids);
      forall l | l in rest ensures l.id != ls[0].id {
        var j :| 0 <= j < |ls[1..]| && ls[1..][j] == l;
        assert ls[j + 1] == l;
      }
      if ls[0].id !in ids {
        var r := [ls[0]] + rest;
        forall i, j | 0 <= i < j < |r| ensures r[i].id != r[j].id {
          if i == 0 { assert r[j] in rest; }
          else { assert r[i] == rest[i - 1] && r[j] == rest[j - 1]; }
        }
      }
    }
  }

  /** Moving a layer keeps the set of layers and unique ids, and puts the
      moved layer directly in front of `before`. */
  lemma MoveBeforeFacts(ls: seq<Layer>, id: string, before: string)
    requires UniqueIds(ls) && HasLayer(ls, id) && HasLayer(ls, before) && id != before
    ensures var r := MoveBefore(ls, id, before);
      && |r| == |ls|
      && (forall l :: l in r <==> l in ls)
      && UniqueIds(r)
      && exists k :: 0 <= k < |r| - 1 && r[k].id == id && r[k + 1].id == before
  {
    var ki := IndexOf(ls, id);
    var rest := Without(ls, {id});
    RestHasLayer(ls, id, before);
    var k := IndexOf(rest, before);
    MoveBeforeUnfold(ls, id, before);
    MovedFacts(ls, ki, rest, k);
  }

  /** What `MoveBefore` builds when both layers exist. */
  lemma MoveBeforeUnfold(ls: seq<Layer>, id: string, before: string)
    requires HasLayer(ls, id) && HasLayer(ls, before) && id != before
    requires HasLayer(Without(ls, {id}), before)
    ensures var rest := Without(ls, {id});
      var k := IndexOf(rest, before);
      MoveBefore(ls, id, before) == rest[..k] + [ls[IndexOf(ls, id)]] + rest[k..]
  {
  }

  /** The facts of `MoveBeforeFacts` about the list it builds. */
  lemma MovedFacts(ls: seq<Layer>, ki: nat, rest: seq<Layer>, k: nat)
    requires UniqueIds(ls) && ki < |ls| && rest == Without(ls, {ls[ki].id})
    requires k < |rest|
    ensures var r := rest[..k] + [ls[ki]] + rest[k..];
      && |r| == |ls|
      && (forall l :: l in r <==> l in ls)
      && UniqueIds(r)
      && r[k] == ls[ki] && r[k + 1] == rest[k]
  {
    WithoutKeepsUnique(ls, {ls[ki].id});
    RemoveOneLength(ls, ls[ki].id, ki);
    InsertKeepsUnique(rest, ls[ki], k);
    OnlyOneWithId(ls, ki);
  }

  /** Taking out one id leaves every other id in the list. */
  lemma RestHasLayer(ls: seq<Layer>, id: string, before: string)
    requires HasLayer(ls, before) && id != before
    ensures HasLayer(Without(ls, {id}), before)
  {
    var rest := Without(ls, {id});
    var k := IndexOf(ls, before);
    assert ls[k] in rest;
    var j :| 0 <= j < |rest| && rest[j] == ls[k];
  }

  /** With unique ids, the layer at a position is the only one with its id. */
  lemma OnlyOneWithId(ls: seq<Layer>, k: nat)
    requires UniqueIds(ls) && k < |ls|
    ensures forall l :: l in ls && l.id == ls[k].id ==> l == ls[k]
  {
    forall l | l in ls && l.id == ls[k].id ensures l == ls[k] {
      var j :| 0 <= j < |ls| && ls[j] == l;
      assert j == k;
    }
  }

  /** Inserting a layer whose id is new keeps the ids unique. */
  lemma InsertKeepsUnique(rest: seq<Layer>, moved: Layer, k: nat)
    requires UniqueIds(rest) && k <= |rest|
    requires forall l :: l in rest ==> l.id != moved.id
    ensures var r := rest[..k] + [moved] + rest[k..];
      && UniqueIds(r)
      && (forall l :: l in r <==> l in rest || l == moved)
  {
    assert rest == rest[..k] + rest[k..];
    forall x | 0 <= x < |rest| ensures rest[x].id != moved.id {
      assert rest[x] in rest;
    }
    forall i, j | 0 <= i < j < |rest| + 1
      ensures (rest[..k] + [moved] + rest[k..])[i].id != (rest[..k] + [moved] + rest[k..])[j].id
    {
      InsertPairUnique(rest, moved, k, i, j);
    }
  }

  /** One pair of positions of the list `InsertKeepsUnique` builds. */
  lemma InsertPairUnique(rest: seq<Layer>, moved: Layer, k: nat, i: nat, j: nat)
    requires UniqueIds(rest) && k <= |rest|
    requires forall x :: 0 <= x < |rest| ==> rest[x].id != moved.id
    requires i < j < |rest| + 1
    ensures (rest[..k] + [moved] + rest[k..])[i].id != (rest[..k] + [moved] + rest[k..])[j].id
  {
    var r := rest[..k] + [moved] + rest[k..];
    var a := if i < k then rest[i] else if i == k then moved else rest[i - 1];
    var b := if j < k then rest[j] else if j == k then moved else rest[j - 1];
    assert r[i] == a && r[j] == b;
  }

  /** Removing the one layer with a given id shortens the list by one. */
  lemma RemoveOneLength(ls: seq<Layer>, id: string, k: nat)
    requires UniqueIds(ls) && k < |ls| && ls[k].id == id
    ensures |Without(ls, {id})| == |ls| - 1
    decreases |ls|
  {
    if k == 0 {
      WithoutNothing(ls[1..], {id});
    } else {
      assert ls[0].id != id;
      RemoveOneLength(ls[1..], id, k - 1);
    }
  }

  /** Removing ids that no layer has changes nothing. */
  lemma WithoutNothing(ls: seq<Layer>, ids: set<string>)
    requires forall l :: l in ls ==> l.id !in ids
    ensures Without(ls, ids) == ls
    decreases |ls|
  {
    if |ls| > 0 {
      WithoutNothing(ls[1..], ids);
      assert [ls[0]] + ls[1..] == ls;
    }
  }

  /** Removing in two steps is removing the union. */
  lemma WithoutTwice(ls: seq<Layer>, a: set<string>, b: set<string>)
    ensures Without(Without(ls, a), b) == Without(ls, a + b)
    decreases |ls|
  {
    if |ls| > 0 {
      WithoutTwice(ls[1..], a, b);
      var head := if ls[0].id in a then [] else [ls[0]];
      WithoutAppend(head, Without(ls[1..], a), b);
    }
  }

  /** Removing two sets of keys from a map one after the other. */
  lemma MinusTwice<V>(mm: map<string, V>, a: set<string>, b: set<string>)
    ensures (mm - a) - b == mm - (a + b)
  {
  }

  lemma WithoutAppend(xs: seq<Layer>, ys: seq<Layer>, ids: set<string>)
    ensures Without(xs + ys, ids) == Without(xs, ids) + Without(ys, ids)
    decreases |xs|
  {
    if |xs| > 0 {
      assert (xs + ys)[1..] == xs[1..] + ys;
      WithoutAppend(xs[1..], ys, ids);
    } else {
      assert xs + ys == ys;
    }
  }

  /** `b` is `a` with layers from `news` put on top. */
  ghost predicate OnTop(a: seq<Layer>, b: seq<Layer>, news: set<Layer>) {
    a <= b && forall j :: |a| <= j < |b| ==> b[j] in news
  }

  lemma OnTopTrans(a: seq<Layer>, b: seq<Layer>, c: seq<Layer>, n1: set<Layer>, n2: set<Layer>)
    requires OnTop(a, b, n1) && OnTop(b, c, n2)
    ensures OnTop(a, c, n1 + n2)
  {
    forall j | |a| <= j < |c| ensures c[j] in n1 + n2 {
      if j < |b| {
        assert c[j] == b[j];
      }
    }
  }

  /** Putting a layer on top: the ids and the layers present grow by it. */
  lemma PushFacts(ls: seq<Layer>, x: Layer)
    ensures forall q :: HasLayer(ls + [x], q) <==> HasLayer(ls, q) || q == x.id
    ensures forall l :: l in ls + [x] <==> l in ls || l == x
  {
    forall q | HasLayer(ls + [x], q) && q != x.id ensures HasLayer(ls, q) {
      var i :| 0 <= i < |ls + [x]| && (ls + [x])[i].id == q;
      assert ls[i].id == q;
    }
    forall q | HasLayer(ls, q) ensures HasLayer(ls + [x], q) {
      var i :| 0 <= i < |ls| && ls[i].id == q;
      assert (ls + [x])[i].id == q;
    }
    assert (ls + [x])[|ls|] == x;
  }

  // ---------------------------------------------------------------------

  class Map {
    var sources: map<string, Source>
    var layers: seq<Layer>
    var listeners: set<Listener>
    var styleLoaded: bool
    /** Calls queued with `map.once('style.load', …)`, oldest first. */
    var onStyleLoad: seq<DeferredCall>

    ghost predicate Valid()
      reads this
    {
      UniqueIds(layers)
    }

    constructor (styleLoaded: bool)
      ensures Valid()
      ensures sources == map[] && layers == [] && listeners == {}
      ensures this.styleLoaded == styleLoaded && onStyleLoad == []
    {
      sources := map[];
      layers := [];
      listeners := {};
      this.styleLoaded := styleLoaded;
      onStyleLoad := [];
    }

    /** `!!map.getLayer(id)`. */
    predicate LayerExists(id: string)
      reads this
    {
      HasLayer(layers, id)
    }

    /** `!!map.getSource(id)`. */
    predicate SourceExists(id: string)
      reads this
    {
      id in sources
    }

    /** `map.addSource(id, src)`: false when it throws because the id is taken. */
    method AddSource(id: string, src: Source) returns (ok: bool)
      modifies this`sources
      ensures ok <==> id !in old(sources)
      ensures sources == if ok then old(sources)[id := src] else old(sources)
    {
      ok := id !in sources;
      if ok {
        sources := sources[id := src];
      }
    }

    /** `map.addLayer(layer)`: appended on top unless the id is taken. */
    method AddLayer(layer: Layer)
      requires Valid()
      modifies this`layers
      ensures Valid()
      ensures layers == if HasLayer(old(layers), layer.id) then old(layers) else old(layers) + [layer]
    {
      if !HasLayer(layers, layer.id) {
        var ls := layers + [layer];
        forall i, j | 0 <= i < j < |ls| ensures ls[i].id != ls[j].id {
          if j == |layers| {
            assert ls[i] == layers[i];
          } else {
            assert ls[i] == layers[i] && ls[j] == layers[j];
          }
        }
        layers := ls;
      }
    }

    /** `map.removeLayer(id)`. */
    method RemoveLayer(id: string)
      requires Valid()
      modifies this`layers
      ensures Valid()
      ensures layers == Without(old(layers), {id})
    {
      WithoutKeepsUnique(layers, {id});
      layers := Without(layers, {id});
    }

    /** `map.removeSource(id)`. */
    method RemoveSource(id: string)
      modifies this`sources
      ensures sources == old(sources) - {id}
    {
      sources := sources - {id};
    }

    /** `map.setLayoutProperty(id, 'visibility', v)`. */
    method SetVisibility(id: string, v: Visibility)
      requires Valid()
      modifies this`layers
      ensures Valid()
      ensures layers == WithVisibility(old(layers), id, v)
    {
      layers := WithVisibility(layers, id, v);
    }

    /** `map.setPaintProperty(id, 'line-width', w)`. */
    method SetLineWidth(id: string, w: int)
      requires Valid()
      modifies this`layers
      ensures Valid()
      ensures layers == WithLineWidth(old(layers), id, w)
    {
      layers := WithLineWidth(layers, id, w);
    }

    /** `map.moveLayer(id, before)`. */
    method MoveLayer(id: string, before: string)
      requires Valid()
      modifies this`layers
      ensures Valid()
      ensures layers == MoveBefore(old(layers), id, before)
    {
      if id != before && HasLayer(layers, id) && HasLayer(layers, before) {
        MoveBeforeFacts(layers, id, before);
      }
      layers := MoveBefore(layers, id, before);
    }

    /** `map.on(event, layerId, handler)`. */
    method On(event: string, layerId: string, handler: Handler)
      modifies this`listeners
      ensures listeners == old(listeners) + {Listener(event, layerId, handler)}
    {
      listeners := listeners + {Listener(event, layerId, handler)};
    }

    /** `map.off(event, layerId, handler)`. */
    method Off(event: string, layerId: string, handler: Handler)
      modifies this`listeners
      ensures listeners == old(listeners) - {Listener(event, layerId, handler)}
    {
      listeners := listeners - {Listener(event, layerId, handler)};
    }

    /** `map.once('style.load', call)`. */
    method Once(call: DeferredCall)
      modifies this`onStyleLoad
      ensures onStyleLoad == old(onStyleLoad) + [call]
    {
      onStyleLoad := onStyleLoad + [call];
    }
  }
}
