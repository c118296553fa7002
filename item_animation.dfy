/** The timeline playback of `src/components/map/itemAnimation/index.jsx`.
    A date→index map drives each tick; each tick buffers a clipped window of
    the next four items as hidden raster layers, shows the current one at
    once and hides the previous one only later (a 900 ms timer, kept here as
    a queue of pending hides that `FireHide` runs one at a time). The
    moment-formatted datetime key is the datetime itself. */
module ItemAnimation {
  import opened Wrappers
  import opened Text
  import opened Geo
  import opened MapSurface
  import opened MapUtils

  /** How many items each tick buffers. */
  const Lookahead: nat := 4

  /** `getLayerId(i)` and `getSourceId(i)` called with one argument:
      `i + '-' + undefined`. */
  function PlaybackId(i: nat): (id: string)
    ensures id == GetLayerId(NatToString(i), "undefined") == GetSourceId(NatToString(i), "undefined")
  {
    NatToString(i) + "-undefined"
  }

  /** Distinct indices give distinct ids. */
  lemma PlaybackIdInjective(i: nat, j: nat)
    ensures PlaybackId(i) == PlaybackId(j) <==> i == j
  {
    if PlaybackId(i) == PlaybackId(j) {
      var a, b := NatToString(i), NatToString(j);
      assert |a| == |b|;
      assert a == PlaybackId(i)[..|a|] && b == PlaybackId(j)[..|b|];
      NatToStringInjective(i, j);
    }
  }

  /** The date→index map the effect fills: each item's datetime sends to
      its index, later items overwriting earlier ones. */
  function DateIndexOf(items: seq<VizItem>): (idx: map<int, nat>)
    ensures forall d :: d in idx ==> idx[d] < |items| && items[idx[d]].datetime == d
    decreases |items|
  {
    if |items| == 0 then map[]
    else DateIndexOf(items[..|items| - 1])[items[|items| - 1].datetime := |items| - 1]
  }

  /** Every datetime is a key, and its value is the last index carrying it. */
  lemma {:induction false} DateIndexLastWins(items: seq<VizItem>, i: nat)
    requires i < |items|
    ensures items[i].datetime in DateIndexOf(items)
    ensures i <= DateIndexOf(items)[items[i].datetime]
    ensures forall j :: DateIndexOf(items)[items[i].datetime] < j < |items| ==> items[j].datetime != items[i].datetime
    decreases |items|
  {
    var n := |items|;
    var init := items[..n - 1];
    if i < n - 1 && items[n - 1].datetime != items[i].datetime {
      DateIndexLastWins(init, i);
      assert init[i] == items[i];
      forall j | DateIndexOf(items)[items[i].datetime] < j < n - 1
        ensures items[j].datetime != items[i].datetime
      {
        assert init[j] == items[j];
      }
    }
  }

  /** The date keys are exactly the items' datetimes. */
  lemma DateIndexKeys(items: seq<VizItem>, d: int)
    ensures d in DateIndexOf(items) <==> exists i :: 0 <= i < |items| && items[i].datetime == d
  {
    if exists i :: 0 <= i < |items| && items[i].datetime == d {
      var i :| 0 <= i < |items| && items[i].datetime == d;
      DateIndexLastWins(items, i);
    }
  }

  /** The `forEach` that fills `vizItemDateIdxMap`. */
  method BuildDateIndex(items: seq<VizItem>) returns (idx: map<int, nat>)
    ensures idx == DateIndexOf(items)
  {
    idx := map[];
    var i := 0;
    while i < |items|
      invariant 0 <= i <= |items|
      invariant idx == DateIndexOf(items[..i])
    {
      assert items[..i + 1][..i] == items[..i];
      idx := idx[items[i].datetime := i];
      i := i + 1;
    }
    assert items[..i] == items;
  }

  /** The indices `lo <= i < hi`. */
  function Range(lo: nat, hi: nat): (r: set<nat>)
    ensures forall i :: i in r <==> lo <= i < hi
    decreases hi
  {
    if hi <= lo then {} else Range(lo, hi - 1) + {hi - 1}
  }

  /** The indices `bufferSourceLayers(index, k)` walks over for `n` items:
      none when `index >= n - 1`, otherwise `[index, min(index + k, n))`. */
  function Window(index: nat, k: nat, n: nat): (w: set<nat>)
    ensures forall i :: i in w <==> index + 1 < n && index <= i < index + k && i < n
  {
    if index + 1 >= n then {} else Range(index, if index + k >= n then n else index + k)
  }

  /** The ids of a set of indices. */
  function PlaybackIds(w: set<nat>): set<string>
  {
    set i | i in w :: PlaybackId(i)
  }

  /** An id is buffered for a set of indices exactly when it is the id of
      one of them. */
  lemma PlaybackIdsMembers(w: set<nat>, x: string)
    ensures x in PlaybackIds(w) <==> exists i :: i in w && x == PlaybackId(i)
  {
  }

  lemma PlaybackIdsAdd(w: set<nat>, i: nat)
    ensures PlaybackIds(w + {i}) == PlaybackIds(w) + {PlaybackId(i)}
  {
  }

  // ---------------------------------------------------------------------
  // What buffering and a tick do to the map's sources and layers

  /** `addSourceLayerToMap(map, …, vizItem, id, id)` with no API URL: the
      source is added unless its id is taken, and the hidden raster layer
      goes on top with it unless a layer of that id exists. A taken source
      id makes `addSource` throw and adds nothing. */
  function AddRaster(s: Surface, style: RasterStyle, item: VizItem, id: string): (r: Surface)
    ensures r.sources.Keys == s.sources.Keys + {id}
    ensures forall x :: x in s.sources ==> r.sources[x] == s.sources[x]
    ensures id !in s.sources ==> r.sources[id] == RasterSourceFor(style, item, "undefined") && HasLayer(r.layers, id)
    ensures id in s.sources ==> r.layers == s.layers
    ensures s.layers <= r.layers
    ensures forall j :: |s.layers| <= j < |r.layers| ==> r.layers[j] == RasterLayerFor(id, id)
  {
    AddedFacts(s, id, RasterSourceFor(style, item, "undefined"), RasterLayerFor(id, id));
    Added(s, id, RasterSourceFor(style, item, "undefined"), RasterLayerFor(id, id))
  }

  /** One buffered index: `addSourceLayerToMap` for its id. */
  method BufferOne(m: Map, style: RasterStyle, item: VizItem, id: string)
    requires m.Valid()
    modifies m
    ensures m.Valid()
    ensures m.listeners == old(m.listeners) && m.styleLoaded == old(m.styleLoaded)
      && m.onStyleLoad == old(m.onStyleLoad)
    ensures Surface(m.sources, m.layers) == AddRaster(Surface(old(m.sources), old(m.layers)), style, item, id)
  {
    AddSourceLayerToMap(m, style, item, id, id, "undefined");
  }

  /** `moment(second).diff(start, 'minutes')`, which truncates toward zero,
      times the minute in milliseconds: the timeline step. It is the whole
      number of minutes nearest to the gap on the side of zero. */
  function StepMillis(start: int, second: int): (step: int)
    ensures step % 60000 == 0
    ensures second - start >= 0 ==> 0 <= step <= second - start < step + 60000
    ensures second - start < 0 ==> step - 60000 < second - start <= step <= 0
  {
    var d := second - start;
    var minutes := if d >= 0 then d / 60000 else -((-d) / 60000);
    60000 * minutes
  }

  /** The step is determined by the two conditions above: any multiple of a
      minute within a minute of the gap, on the side of zero, is it. */
  lemma StepMillisUnique(start: int, second: int, step: int)
    requires step % 60000 == 0
    requires second - start >= 0 ==> 0 <= step <= second - start < step + 60000
    requires second - start < 0 ==> step - 60000 < second - start <= step <= 0
    ensures step == StepMillis(start, second)
  {
    var other := StepMillis(start, second);
    var q, p := step / 60000, other / 60000;
    assert step == 60000 * q && other == 60000 * p;
    assert -60000 < step - other < 60000;
  }

  /** The first `forEach` of the cleanup. */
  method RemoveAllLayers(m: Map, ids: set<string>)
    requires m.Valid()
    modifies m`layers
    ensures m.Valid()
    ensures m.layers == Without(old(m.layers), ids)
  {
    ghost var ls0 := m.layers;
    var remaining := ids;
    WithoutNothing(m.layers, {});
    assert ids - remaining == {};
    while remaining != {}
      invariant remaining <= ids
      invariant m.Valid()
      invariant m.layers == Without(ls0, ids - remaining)
      decreases |remaining|
    {
      var layer :| layer in remaining;
      if m.LayerExists(layer) {
        m.RemoveLayer(layer);
      } else {
        WithoutNothing(m.layers, {layer});
      }
      WithoutTwice(ls0, ids - remaining, {layer});
      assert ids - remaining + {layer} == ids - (remaining - {layer});
      remaining := remaining - {layer};
    }
    assert ids - remaining == ids;
  }

  /** The second `forEach` of the cleanup. */
  method RemoveAllSources(m: Map, ids: set<string>)
    modifies m`sources
    ensures m.sources == old(m.sources) - ids
  {
    var remaining := ids;
    while remaining != {}
      invariant remaining <= ids
      invariant m.sources == old(m.sources) - (ids - remaining)
      decreases |remaining|
    {
      var source :| source in remaining;
      if m.SourceExists(source) {
        m.RemoveSource(source);
      }
      remaining := remaining - {source};
    }
  }

  /** An index's id is not among the ids of the indices before it. */
  lemma NotInEarlierIds(lo: nat, i: nat)
    ensures PlaybackId(i) !in PlaybackIds(Range(lo, i))
  {
    forall j | j in Range(lo, i) ensures PlaybackId(j) != PlaybackId(i) {
      PlaybackIdInjective(i, j);
    }
    PlaybackIdsMembers(Range(lo, i), PlaybackId(i));
  }

  /** The surface after the loop of `bufferSourceLayers` over
      `lo <= i < hi`: each index whose id is not in `buffered` goes through
      `addSourceLayerToMap`. */
  function BufferedSurface(s: Surface, style: RasterStyle, items: seq<VizItem>, lo: nat, hi: nat,
                           buffered: set<string>): Surface
    requires lo <= hi <= |items|
    decreases hi
  {
    if hi == lo then s
    else
      var before := BufferedSurface(s, style, items, lo, hi - 1, buffered);
      if PlaybackId(hi - 1) in buffered then before
      else AddRaster(before, style, items[hi - 1], PlaybackId(hi - 1))
  }

  /** The key sets of one more loop round. */
  lemma KeysStep(keys: set<string>, base: set<string>, ids: set<string>, id: string, buffered: set<string>)
    requires keys == base + (ids - buffered)
    ensures (if id in buffered then keys else keys + {id}) == base + ((ids + {id}) - buffered)
  {
  }

  /** Buffering adds a source for exactly the ids of the range not yet
      buffered, keeps every source there was, and only puts layers on top. */
  lemma {:induction false} BufferedSurfaceGrows(s: Surface, style: RasterStyle, items: seq<VizItem>,
                                                lo: nat, hi: nat, buffered: set<string>)
    requires lo <= hi <= |items|
    ensures var r := BufferedSurface(s, style, items, lo, hi, buffered);
      && r.sources.Keys == s.sources.Keys + (PlaybackIds(Range(lo, hi)) - buffered)
      && (forall x :: x in s.sources ==> r.sources[x] == s.sources[x])
    decreases hi
  {
    if hi > lo {
      var before := BufferedSurface(s, style, items, lo, hi - 1, buffered);
      BufferedSurfaceGrows(s, style, items, lo, hi - 1, buffered);
      assert Range(lo, hi) == Range(lo, hi - 1) + {hi - 1};
      PlaybackIdsAdd(Range(lo, hi - 1), hi - 1);
      KeysStep(before.sources.Keys, s.sources.Keys, PlaybackIds(Range(lo, hi - 1)), PlaybackId(hi - 1), buffered);
    }
  }

  /** Buffering only puts layers on top of the old ones. */
  lemma {:induction false} BufferedSurfaceOnTop(s: Surface, style: RasterStyle, items: seq<VizItem>,
                                                lo: nat, hi: nat, buffered: set<string>)
    requires lo <= hi <= |items|
    ensures s.layers <= BufferedSurface(s, style, items, lo, hi, buffered).layers
    decreases hi
  {
    if hi > lo {
      BufferedSurfaceOnTop(s, style, items, lo, hi - 1, buffered);
    }
  }

  /** Every layer buffering puts on top is the hidden raster layer of an id
      of the range not yet buffered. */
  lemma {:induction false} BufferedSurfaceNewLayers(s: Surface, style: RasterStyle, items: seq<VizItem>,
                                                    lo: nat, hi: nat, buffered: set<string>)
    requires lo <= hi <= |items|
    ensures var r := BufferedSurface(s, style, items, lo, hi, buffered);
      |s.layers| <= |r.layers| &&
      forall j :: |s.layers| <= j < |r.layers| ==>
        r.layers[j] == RasterLayerFor(r.layers[j].id, r.layers[j].id)
        && r.layers[j].id in PlaybackIds(Range(lo, hi)) - buffered
    decreases hi
  {
    if hi > lo {
      BufferedSurfaceNewLayers(s, style, items, lo, hi - 1, buffered);
      assert Range(lo, hi) == Range(lo, hi - 1) + {hi - 1};
      PlaybackIdsAdd(Range(lo, hi - 1), hi - 1);
      var before := BufferedSurface(s, style, items, lo, hi - 1, buffered);
      var r := BufferedSurface(s, style, items, lo, hi, buffered);
      assert before.layers <= r.layers;
    }
  }

  /** An id of the range that was neither buffered nor a source gets the
      item's raster source and a layer. */
  lemma {:induction false} BufferedSurfaceAdds(s: Surface, style: RasterStyle, items: seq<VizItem>,
                                               lo: nat, hi: nat, buffered: set<string>, i: nat)
    requires lo <= i < hi <= |items|
    requires PlaybackId(i) !in buffered && PlaybackId(i) !in s.sources
    ensures var r := BufferedSurface(s, style, items, lo, hi, buffered);
      && PlaybackId(i) in r.sources && r.sources[PlaybackId(i)] == RasterSourceFor(style, items[i], "undefined")
      && HasLayer(r.layers, PlaybackId(i))
    decreases hi
  {
    var before := BufferedSurface(s, style, items, lo, hi - 1, buffered);
    if i < hi - 1 {
      BufferedSurfaceAdds(s, style, items, lo, hi - 1, buffered, i);
      var r := BufferedSurface(s, style, items, lo, hi, buffered);
      assert before.layers <= r.layers;
      var k :| 0 <= k < |before.layers| && before.layers[k].id == PlaybackId(i);
      assert r.layers[k] == before.layers[k];
    } else {
      BufferedSurfaceGrows(s, style, items, lo, hi - 1, buffered);
      NotInEarlierIds(lo, i);
    }
  }

  /** The ids of a range that ends by `n` are ids of the first `n` items. */
  lemma RangeIdsAreItems(lo: nat, hi: nat, n: nat)
    requires hi <= n
    ensures forall x :: x in PlaybackIds(Range(lo, hi)) ==> exists j :: 0 <= j < n && x == PlaybackId(j)
  {
    forall x | x in PlaybackIds(Range(lo, hi)) ensures exists j :: 0 <= j < n && x == PlaybackId(j) {
      PlaybackIdsMembers(Range(lo, hi), x);
    }
  }

  /** One round of the `bufferSourceLayers` loop, stated against the
      surface `s0` before the loop. */
  method BufferNext(m: Map, style: RasterStyle, items: seq<VizItem>, lo: nat, i: nat,
                    buffered: set<string>, r: set<string>, ghost s0: Surface) returns (r': set<string>)
    requires m.Valid() && lo <= i < |items|
    requires r == buffered + PlaybackIds(Range(lo, i))
    requires Surface(m.sources, m.layers) == BufferedSurface(s0, style, items, lo, i, buffered)
    modifies m
    ensures m.Valid()
    ensures r' == buffered + PlaybackIds(Range(lo, i + 1))
    ensures m.listeners == old(m.listeners) && m.styleLoaded == old(m.styleLoaded)
      && m.onStyleLoad == old(m.onStyleLoad)
    ensures Surface(m.sources, m.layers) == BufferedSurface(s0, style, items, lo, i + 1, buffered)
  {
    var id := PlaybackId(i);
    assert Range(lo, i + 1) == Range(lo, i) + {i};
    PlaybackIdsAdd(Range(lo, i), i);
    NotInEarlierIds(lo, i);
    r' := r;
    if id !in r {
      BufferOne(m, style, items[i], id);
      r' := r + {id};
    }
  }

  /** The loop of `bufferSourceLayers` over `lo <= i < limit`: ids not in
      `buffered` go through `addSourceLayerToMap` and join the set. */
  method BufferRange(m: Map, style: RasterStyle, items: seq<VizItem>, lo: nat, limit: nat,
                     buffered: set<string>) returns (r: set<string>)
    requires m.Valid() && lo <= limit <= |items|
    modifies m
    ensures m.Valid()
    ensures r == buffered + PlaybackIds(Range(lo, limit))
    ensures m.listeners == old(m.listeners) && m.styleLoaded == old(m.styleLoaded)
      && m.onStyleLoad == old(m.onStyleLoad)
    ensures Surface(m.sources, m.layers) ==
      BufferedSurface(Surface(old(m.sources), old(m.layers)), style, items, lo, limit, buffered)
  {
    ghost var s0 := Surface(m.sources, m.layers);
    assert Range(lo, lo) == {};
    r := buffered;
    var i := lo;
    while i < limit
      invariant lo <= i <= limit
      invariant r == buffered + PlaybackIds(Range(lo, i))
      invariant m.Valid()
      invariant m.listeners == old(m.listeners) && m.styleLoaded == old(m.styleLoaded)
        && m.onStyleLoad == old(m.onStyleLoad)
      invariant Surface(m.sources, m.layers) == BufferedSurface(s0, style, items, lo, i, buffered)
    {
      r := BufferNext(m, style, items, lo, i, buffered, r, s0);
      i := i + 1;
    }
  }

  /** What `bufferSourceLayers(map, …, index, k, …)` does to the surface:
      nothing when `index >= n - 1`, otherwise the loop up to
      `min(index + k, n)`. */
  function WindowSurface(s: Surface, style: RasterStyle, items: seq<VizItem>, index: nat, k: nat,
                         buffered: set<string>): Surface
  {
    if index + 1 >= |items| then s
    else BufferedSurface(s, style, items, index, if index + k >= |items| then |items| else index + k, buffered)
  }

  /** The window as the range the loop runs over. */
  lemma WindowRange(index: nat, k: nat, n: nat)
    ensures index + 1 >= n ==> Window(index, k, n) == {} && PlaybackIds(Window(index, k, n)) == {}
    ensures index + 1 < n ==> Window(index, k, n) == Range(index, if index + k >= n then n else index + k)
  {
  }

  /** Buffering a window adds a source for exactly its ids not yet
      buffered, keeps every old source and only puts layers on top. */
  lemma WindowSurfaceGrows(s: Surface, style: RasterStyle, items: seq<VizItem>, index: nat, k: nat,
                           buffered: set<string>)
    ensures var r := WindowSurface(s, style, items, index, k, buffered);
      && r.sources.Keys == s.sources.Keys + (PlaybackIds(Window(index, k, |items|)) - buffered)
      && (forall x :: x in s.sources ==> r.sources[x] == s.sources[x])
      && s.layers <= r.layers
  {
    var n := |items|;
    WindowRange(index, k, n);
    if index + 1 < n {
      BufferedSurfaceGrows(s, style, items, index, if index + k >= n then n else index + k, buffered);
      BufferedSurfaceOnTop(s, style, items, index, if index + k >= n then n else index + k, buffered);
    }
  }

  /** Every layer a window adds is the hidden raster layer of one of its
      ids not yet buffered. */
  lemma WindowSurfaceNewLayers(s: Surface, style: RasterStyle, items: seq<VizItem>, index: nat, k: nat,
                               buffered: set<string>)
    ensures var r := WindowSurface(s, style, items, index, k, buffered);
      |s.layers| <= |r.layers| &&
      forall j :: |s.layers| <= j < |r.layers| ==>
        r.layers[j] == RasterLayerFor(r.layers[j].id, r.layers[j].id)
        && r.layers[j].id in PlaybackIds(Window(index, k, |items|)) - buffered
  {
    var n := |items|;
    WindowRange(index, k, n);
    if index + 1 < n {
      BufferedSurfaceNewLayers(s, style, items, index, if index + k >= n then n else index + k, buffered);
    }
  }

  /** A window index whose id was neither buffered nor a source gets its
      item's raster source and a layer. */
  lemma WindowSurfaceAdds(s: Surface, style: RasterStyle, items: seq<VizItem>, index: nat, k: nat,
                          buffered: set<string>, i: nat)
    requires i in Window(index, k, |items|) && PlaybackId(i) !in buffered && PlaybackId(i) !in s.sources
    ensures var r := WindowSurface(s, style, items, index, k, buffered);
      && PlaybackId(i) in r.sources && r.sources[PlaybackId(i)] == RasterSourceFor(style, items[i], "undefined")
      && HasLayer(r.layers, PlaybackId(i))
  {
    var n := |items|;
    BufferedSurfaceAdds(s, style, items, index, if index + k >= n then n else index + k, buffered, i);
  }

  /** What `handleAnimation` does to the surface for a known date: the
      window is buffered and the index's layer set to `visible`. */
  function TickSurface(s: Surface, style: RasterStyle, items: seq<VizItem>, index: nat,
                       buffered: set<string>): Surface
  {
    var b := WindowSurface(s, style, items, index, Lookahead, buffered);
    Surface(b.sources, WithVisibility(b.layers, PlaybackId(index), Visible))
  }

  /** After a tick every layer of the current id is visible, and there is
      one when the id had a layer or was buffered by this very tick; every
      old layer of another id is as it was, and the sources are those the
      buffering left. The last index buffers nothing, so its layer shows
      only if an earlier tick buffered it. */
  lemma TickShowsCurrent(s: Surface, style: RasterStyle, items: seq<VizItem>, index: nat,
                         buffered: set<string>)
    ensures var r := TickSurface(s, style, items, index, buffered);
      var cur := PlaybackId(index);
      && (forall l :: l in r.layers && l.id == cur ==> l.layout == Some(Visible))
      && (HasLayer(s.layers, cur) || (index + 1 < |items| && cur !in buffered && cur !in s.sources) ==>
            HasLayer(r.layers, cur))
      && |s.layers| <= |r.layers|
      && (forall j :: 0 <= j < |s.layers| && s.layers[j].id != cur ==> r.layers[j] == s.layers[j])
      && r.sources == WindowSurface(s, style, items, index, Lookahead, buffered).sources
      && (index + 1 >= |items| ==> r.sources == s.sources && |r.layers| == |s.layers|)
  {
    var b := WindowSurface(s, style, items, index, Lookahead, buffered);
    var cur := PlaybackId(index);
    WindowSurfaceGrows(s, style, items, index, Lookahead, buffered);
    WindowRange(index, Lookahead, |items|);
    VisibilityFacts(b.layers, cur, Visible);
    if HasLayer(s.layers, cur) {
      var k :| 0 <= k < |s.layers| && s.layers[k].id == cur;
      assert b.layers[k] == s.layers[k];
    } else if index + 1 < |items| && cur !in buffered && cur !in s.sources {
      WindowSurfaceAdds(s, style, items, index, Lookahead, buffered, index);
    }
    assert forall j :: 0 <= j < |s.layers| ==> b.layers[j] == s.layers[j];
  }

  /** The playback state: the items and their date index, the two buffer
      sets, the module-level `prev`, the hides not yet run and whether the
      timeline control is on the map. */
  class Playback {
    var items: seq<VizItem>
    var style: RasterStyle
    var dateIndex: map<int, nat>
    var step: int
    var bufferedLayer: set<string>
    var bufferedSource: set<string>
    var prev: Option<string>
    var pendingHides: seq<Option<string>>
    var attached: bool

    /** The indices are in range, and every buffered id is an item's and has
        its source buffered with it. */
    ghost predicate Valid()
      reads this
    {
      && (forall d :: d in dateIndex ==> dateIndex[d] < |items|)
      && bufferedSource == bufferedLayer
      && (forall x :: x in bufferedLayer ==> exists i :: 0 <= i < |items| && x == PlaybackId(i))
    }

    constructor (style: RasterStyle)
      ensures Valid() && !attached
      ensures items == [] && dateIndex == map[] && bufferedLayer == {} && bufferedSource == {}
      ensures prev == None && pendingHides == []
    {
      this.style := style;
      items := [];
      dateIndex := map[];
      step := 0;
      bufferedLayer := {};
      bufferedSource := {};
      prev := None;
      pendingHides := [];
      attached := false;
    }

    /** The mount effect: without a map or items nothing happens; with one
        item reading `vizItems[1]` throws before the control is made, and
        `ok` is false; otherwise the date index is built, the buffer sets
        start empty and the timeline is attached. `prev` lives at module
        level and is kept. */
    method Start(m: Map?, items: seq<VizItem>) returns (ok: bool)
      requires Valid()
      modifies this`items, this`dateIndex, this`step, this`attached, this`bufferedLayer, this`bufferedSource
      ensures Valid()
      ensures ok <==> !(m != null && |items| == 1)
      ensures m == null || |items| < 2 ==> unchanged(this)
      ensures m != null && |items| >= 2 ==>
        && this.items == items && dateIndex == DateIndexOf(items) && attached
        && bufferedLayer == {} && bufferedSource == {} && prev == old(prev)
        && step == StepMillis(items[0].datetime, items[1].datetime)
    {
      if m == null || |items| == 0 {
        return true;
      }
      if |items| < 2 {
        return false;
      }
      var idx := BuildDateIndex(items);
      bufferedLayer := {};
      bufferedSource := {};
      this.items := items;
      dateIndex := idx;
      step := StepMillis(items[0].datetime, items[1].datetime);
      attached := true;
      ok := true;
    }

    /** `bufferSourceLayers(map, …, vizItems, index, k, …)`: every index of
        the window whose id is not buffered yet goes through
        `addSourceLayerToMap` (tile URL based on `undefined`, since no API
        URL is passed) and joins both buffer sets. Already buffered ids are
        left alone. */
    method BufferSourceLayers(m: Map, index: nat, k: nat)
      requires Valid() && m.Valid()
      modifies this`bufferedLayer, this`bufferedSource, m
      ensures Valid() && m.Valid()
      ensures bufferedLayer == old(bufferedLayer) + PlaybackIds(Window(index, k, |items|))
      ensures bufferedSource == old(bufferedSource) + PlaybackIds(Window(index, k, |items|))
      ensures m.listeners == old(m.listeners) && m.styleLoaded == old(m.styleLoaded)
        && m.onStyleLoad == old(m.onStyleLoad)
      ensures Surface(m.sources, m.layers) ==
        WindowSurface(Surface(old(m.sources), old(m.layers)), style, items, index, k, old(bufferedLayer))
    {
      var n := |items|;
      WindowRange(index, k, n);
      if index + 1 >= n {
        return;
      }
      var limit := if index + k >= n then n else index + k;
      bufferedLayer := BufferRange(m, style, items, index, limit, bufferedLayer);
      bufferedSource := bufferedLayer;
      RangeIdsAreItems(index, limit, n);
    }

    /** `handleAnimation(…, date, …)`: an unknown date does nothing;
        otherwise the window from the date's index is buffered, that index's
        layer is shown at once, the old `prev` is queued to be hidden and
        becomes the current id, even when it already was. */
    method Tick(m: Map, date: int)
      requires Valid() && m.Valid()
      modifies this`bufferedLayer, this`bufferedSource, this`prev, this`pendingHides, m
      ensures Valid() && m.Valid()
      ensures date !in dateIndex ==> unchanged(this) && unchanged(m)
      ensures m.listeners == old(m.listeners) && m.styleLoaded == old(m.styleLoaded)
        && m.onStyleLoad == old(m.onStyleLoad)
      ensures date in dateIndex ==>
        var index := dateIndex[date];
        && bufferedLayer == old(bufferedLayer) + PlaybackIds(Window(index, Lookahead, |items|))
        && bufferedSource == old(bufferedSource) + PlaybackIds(Window(index, Lookahead, |items|))
        && pendingHides == old(pendingHides) + [old(prev)]
        && prev == Some(PlaybackId(index))
        && Surface(m.sources, m.layers) ==
             TickSurface(Surface(old(m.sources), old(m.layers)), style, items, index, old(bufferedLayer))
        && (forall l :: l in m.layers && l.id == PlaybackId(index) ==> l.layout == Some(Visible))
    {
      if date !in dateIndex {
        return;
      }
      var index := dateIndex[date];
      BufferSourceLayers(m, index, Lookahead);
      var prevLayerId := prev;
      var currentLayerId := PlaybackId(index);
      m.SetVisibility(currentLayerId, Visible);
      VisibilityFacts(old(m.layers), currentLayerId, Visible);
      pendingHides := pendingHides + [prevLayerId];
      prev := Some(currentLayerId);
    }

    /** The oldest pending 900 ms timer fires: a non-null id is hidden. */
    method FireHide(m: Map)
      requires Valid() && m.Valid() && |pendingHides| > 0
      modifies this`pendingHides, m`layers
      ensures Valid() && m.Valid()
      ensures pendingHides == old(pendingHides[1..])
      ensures m.layers == match old(pendingHides[0])
        case Some(id) => WithVisibility(old(m.layers), id, Hidden)
        case None => old(m.layers)
    {
      var prevLayerId := pendingHides[0];
      pendingHides := pendingHides[1..];
      if prevLayerId.Some? {
        m.SetVisibility(prevLayerId.value, Hidden);
      }
    }

    /** The effect's cleanup: each buffered layer and source still on the
        map is removed, both sets are emptied, `prev` is reset and the
        control is taken off. Pending hides are not cancelled. */
    method Teardown(m: Map)
      requires Valid() && m.Valid()
      modifies this`bufferedLayer, this`bufferedSource, this`prev, this`attached, m
      ensures Valid() && m.Valid()
      ensures m.layers == Without(old(m.layers), old(bufferedLayer))
      ensures m.sources == old(m.sources) - old(bufferedSource)
      ensures bufferedLayer == {} && bufferedSource == {} && prev == None && !attached
      ensures m.listeners == old(m.listeners)
      ensures m.styleLoaded == old(m.styleLoaded) && m.onStyleLoad == old(m.onStyleLoad)
    {
      RemoveAllLayers(m, bufferedLayer);
      RemoveAllSources(m, bufferedSource);
      bufferedLayer := {};
      bufferedSource := {};
      prev := None;
      attached := false;
    }
  }

  lemma SubsetSize(a: set<nat>, b: set<nat>)
    requires a <= b
    ensures |a| <= |b|
  {
    assert b == a + (b - a);
  }

  /** Each tick adds at most `Lookahead` ids to the buffer, all of items
      from the tick's index on and before the end. */
  lemma WindowBounds(index: nat, n: nat)
    ensures |Window(index, Lookahead, n)| <= Lookahead
    ensures forall i :: i in Window(index, Lookahead, n) ==> index <= i < n
    ensures index + 1 >= n ==> Window(index, Lookahead, n) == {}
    ensures index + 1 < n ==>
      Window(index, Lookahead, n) == Range(index, if index + Lookahead < n then index + Lookahead else n)
  {
    var w := Window(index, Lookahead, n);
    assert w <= {index, index + 1, index + 2, index + 3};
    SubsetSize(w, {index, index + 1, index + 2, index + 3});
  }

  /** Two ticks on the same date queue the current layer itself for
      hiding: the second tick's pending hide is the id now on show, so once
      the timers have run, that frame is hidden although the timeline still
      shows it as current. */
  method SameDateTwiceHidesCurrent(p: Playback, m: Map, date: int)
    requires p.Valid() && m.Valid() && date in p.dateIndex
    modifies p, m
    ensures p.Valid() && m.Valid()
    ensures p.prev == Some(PlaybackId(old(p.dateIndex[date])))
    ensures p.pendingHides == []
    ensures forall l :: l in m.layers && l.id == PlaybackId(old(p.dateIndex[date])) ==> l.layout == Some(Hidden)
  {
    var cur := PlaybackId(p.dateIndex[date]);
    p.Tick(m, date);
    p.Tick(m, date);
    assert p.pendingHides[|p.pendingHides| - 1] == Some(cur);
    DrainHides(p, m, cur);
  }

  /** Running every queued hide when the last one names the current frame
      leaves that frame hidden. */
  method DrainHides(p: Playback, m: Map, cur: string)
    requires p.Valid() && m.Valid() && p.prev == Some(cur)
    requires |p.pendingHides| > 0 && p.pendingHides[|p.pendingHides| - 1] == Some(cur)
    modifies p, m
    ensures p.Valid() && m.Valid()
    ensures p.prev == Some(cur) && p.pendingHides == []
    ensures forall l :: l in m.layers && l.id == cur ==> l.layout == Some(Hidden)
  {
    while |p.pendingHides| > 0
      invariant p.Valid() && m.Valid()
      invariant p.prev == Some(cur)
      invariant |p.pendingHides| > 0 ==> p.pendingHides[|p.pendingHides| - 1] == Some(cur)
      invariant |p.pendingHides| == 0 ==> forall l :: l in m.layers && l.id == cur ==> l.layout == Some(Hidden)
      decreases |p.pendingHides|
    {
      ghost var ls := m.layers;
      p.FireHide(m);
      if p.pendingHides == [] {
        VisibilityFacts(ls, cur, Hidden);
      }
    }
  }
}
