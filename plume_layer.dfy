/** The map handlers of the plume page, `src/pages/dashboard/helper/PlumeLayer.jsx`:
    the click that toggles a plume's raster, the removal of a plume's three
    layers and sources, and the hover highlight of its outline. */
module PlumeLayer {
  import opened Wrappers
  import opened Text
  import opened MapSurface
  import opened MapUtils

  /** The visibility a click switches to: `none` and `visible` swap, any
      other value (or no layout at all) is left alone. */
  function Flipped(v: Option<Visibility>): (r: Option<Visibility>)
    ensures v == Some(Hidden) ==> r == Some(Visible)
    ensures v == Some(Visible) ==> r == Some(Hidden)
    ensures v != Some(Hidden) && v != Some(Visible) ==> r == None
  {
    match v
    case Some(Hidden) => Some(Visible)
    case Some(Visible) => Some(Hidden)
    case _ => None
  }

  /** The layer list after `handleClickedOnLayer(id)`. */
  function ClickedLayers(ls: seq<Layer>, id: string): seq<Layer>
  {
    var rasterId := GetLayerId("raster", id);
    if id == "" then ls
    else match Find(ls, rasterId)
      case None => ls
      case Some(l) =>
        match Flipped(l.layout)
        case None => ls
        case Some(v) => WithVisibility(ls, rasterId, v)
  }

  /** `handleClickedOnLayer(layerId)`: flips `raster-<id>` between hidden
      and visible. */
  method HandleClickedOnLayer(m: Map?, id: string)
    requires m != null ==> m.Valid()
    modifies m
    ensures m != null ==> m.Valid() && m.layers == ClickedLayers(old(m.layers), id)
    ensures m != null ==> (m.sources == old(m.sources) && m.listeners == old(m.listeners)
      && m.styleLoaded == old(m.styleLoaded) && m.onStyleLoad == old(m.onStyleLoad))
  {
    if id != "" {
      var rasterId := GetLayerId("raster", id);
      if m != null && m.LayerExists(rasterId) {
        var visibility := Find(m.layers, rasterId).value.layout;
        if visibility == Some(Hidden) {
          m.SetVisibility(rasterId, Visible);
        } else if visibility == Some(Visible) {
          m.SetVisibility(rasterId, Hidden);
        }
      }
    }
  }

  /** The click does nothing for an empty id, a missing raster layer or a
      visibility that is neither `none` nor `visible`; otherwise it changes
      only the raster layer's visibility, to the other one of the two. */
  lemma ClickFacts(ls: seq<Layer>, id: string)
    requires UniqueIds(ls)
    ensures var rasterId := GetLayerId("raster", id);
      var r := ClickedLayers(ls, id);
      && |r| == |ls|
      && (id == "" || !HasLayer(ls, rasterId) ==> r == ls)
      && (forall i :: 0 <= i < |ls| && ls[i].id != rasterId ==> r[i] == ls[i])
      && (forall i :: 0 <= i < |ls| && ls[i].id == rasterId && id != "" ==>
            r[i] == if Flipped(ls[i].layout).None? then ls[i]
                    else ls[i].(layout := Flipped(ls[i].layout)))
  {
    var rasterId := GetLayerId("raster", id);
    if id != "" && HasLayer(ls, rasterId) {
      var l := Find(ls, rasterId).value;
      forall i | 0 <= i < |ls| && ls[i].id == rasterId ensures ls[i] == l {
        var j :| 0 <= j < |ls| && ls[j] == l;
      }
    }
  }

  /** With unique ids, `Find` returns the layer at the id's position. */
  lemma FindUnique(ls: seq<Layer>, k: nat)
    requires UniqueIds(ls) && k < |ls|
    ensures Find(ls, ls[k].id) == Some(ls[k])
  {
    var l := Find(ls, ls[k].id).value;
    var j :| 0 <= j < |ls| && ls[j] == l;
  }

  /** Setting a visibility keeps every id where it was. */
  lemma WithVisibilityIds(ls: seq<Layer>, id: string, v: Visibility)
    requires UniqueIds(ls)
    ensures UniqueIds(WithVisibility(ls, id, v))
  {
    var r := WithVisibility(ls, id, v);
    forall i, j | 0 <= i < j < |r| ensures r[i].id != r[j].id {
      assert r[i].id == ls[i].id && r[j].id == ls[j].id;
    }
  }

  /** Two clicks give back the original layers. */
  lemma ClickTwiceRestores(ls: seq<Layer>, id: string)
    requires UniqueIds(ls)
    ensures ClickedLayers(ClickedLayers(ls, id), id) == ls
  {
    var rasterId := GetLayerId("raster", id);
    if id != "" && HasLayer(ls, rasterId) {
      var k := IndexOf(ls, rasterId);
      FindUnique(ls, k);
      var l := ls[k];
      if Flipped(l.layout).Some? {
        var once := WithVisibility(ls, rasterId, Flipped(l.layout).value);
        WithVisibilityIds(ls, rasterId, Flipped(l.layout).value);
        assert once[k] == l.(layout := Flipped(l.layout));
        FindUnique(once, k);
        var twice := WithVisibility(once, rasterId, l.layout.value);
        assert ClickedLayers(once, id) == twice;
        forall i | 0 <= i < |ls| ensures twice[i] == ls[i] {
          if ls[i].id == rasterId {
            assert i == k;
          }
        }
      }
    }
  }

  /** The ids `handleRemoveLayer` deals with for one item. */
  function ItemLayerIds(id: string): (ids: set<string>)
    ensures ids == {GetLayerId("raster", id), GetLayerId("polygon", id), GetLayerId("fill", id)}
    ensures GetSourceId("raster", id) in ids && GetSourceId("polygon", id) in ids
      && GetSourceId("fill", id) in ids
  {
    {GetLayerId("raster", id), GetLayerId("polygon", id), GetLayerId("fill", id)}
  }

  /** `if (map.getLayer(id)) map.removeLayer(id)`. */
  method RemoveLayerIfExists(m: Map, id: string)
    requires m.Valid()
    modifies m`layers
    ensures m.Valid()
    ensures m.layers == Without(old(m.layers), {id})
  {
    if m.LayerExists(id) {
      m.RemoveLayer(id);
    } else {
      WithoutNothing(m.layers, {id});
    }
  }

  /** `if (map.getSource(id)) map.removeSource(id)`. */
  method RemoveSourceIfExists(m: Map, id: string)
    modifies m`sources
    ensures m.sources == old(m.sources) - {id}
  {
    if m.SourceExists(id) {
      m.RemoveSource(id);
    }
  }

  /** `handleRemoveLayer(vizItemId)`: each of the three layers that exists
      is removed, then each of the three sources; absent ones are skipped. */
  method HandleRemoveLayer(m: Map, id: string)
    requires m.Valid()
    modifies m
    ensures m.Valid()
    ensures m.layers == Without(old(m.layers), ItemLayerIds(id))
    ensures m.sources == old(m.sources) - ItemLayerIds(id)
    ensures forall l :: l in m.layers ==> l.id !in ItemLayerIds(id)
    ensures forall l: Layer :: l.id !in ItemLayerIds(id) ==> (l in m.layers <==> l in old(m.layers))
    ensures m.listeners == old(m.listeners) && m.styleLoaded == old(m.styleLoaded)
      && m.onStyleLoad == old(m.onStyleLoad)
  {
    var r, p, f := GetLayerId("raster", id), GetLayerId("polygon", id), GetLayerId("fill", id);
    ghost var ls := m.layers;
    RemoveLayerIfExists(m, r);
    RemoveLayerIfExists(m, p);
    WithoutTwice(ls, {r}, {p});
    RemoveLayerIfExists(m, f);
    WithoutTwice(ls, {r} + {p}, {f});
    assert {r} + {p} + {f} == ItemLayerIds(id);
    RemoveSourceIfExists(m, GetSourceId("raster", id));
    RemoveSourceIfExists(m, GetSourceId("polygon", id));
    RemoveSourceIfExists(m, GetSourceId("fill", id));
  }

  /** What `item?.id?.includes('polygon-')` and `paint['line-width'] === 5` select. */
  predicate IsHighlightedOutline(l: Layer) {
    Contains(l.id, "polygon-") && l.lineWidth == Some(5)
  }

  /** The ids of the highlighted outlines, in layer order. */
  function HighlightedOutlines(ls: seq<Layer>): (ids: seq<string>)
    ensures forall i :: 0 <= i < |ls| && IsHighlightedOutline(ls[i]) ==> ls[i].id in ids
    ensures forall x :: x in ids ==> exists i :: 0 <= i < |ls| && ls[i].id == x && IsHighlightedOutline(ls[i])
    decreases |ls|
  {
    if |ls| == 0 then []
    else
      var rest := HighlightedOutlines(ls[1..]);
      assert forall i :: 1 <= i < |ls| ==> ls[i] == ls[1..][i - 1];
      assert forall x :: x in rest ==> exists i :: 0 <= i < |ls| && ls[i].id == x && IsHighlightedOutline(ls[i]) by {
        forall x | x in rest ensures exists i :: 0 <= i < |ls| && ls[i].id == x && IsHighlightedOutline(ls[i]) {
          var i :| 0 <= i < |ls[1..]| && ls[1..][i].id == x && IsHighlightedOutline(ls[1..][i]);
          assert ls[i + 1] == ls[1..][i];
        }
      }
      (if IsHighlightedOutline(ls[0]) then [ls[0].id] else []) + rest
  }

  /** The set of the ids in a list. */
  function IdSet(ids: seq<string>): (s: set<string>)
    ensures forall x :: x in s <==> x in ids
  {
    set x | x in ids
  }

  /** The layers with every layer whose id is in `ids` given width 2. */
  function WithWidthTwo(ls: seq<Layer>, ids: set<string>): (r: seq<Layer>)
    ensures |r| == |ls|
    ensures forall i :: 0 <= i < |ls| ==> r[i] == if ls[i].id in ids then ls[i].(lineWidth := Some(2)) else ls[i]
  {
    seq(|ls|, i requires 0 <= i < |ls| => if ls[i].id in ids then ls[i].(lineWidth := Some(2)) else ls[i])
  }

  /** The layer list after the highlight is cleared. */
  function UnhighlightedLayers(ls: seq<Layer>): seq<Layer>
  {
    seq(|ls|, i requires 0 <= i < |ls| => if IsHighlightedOutline(ls[i]) then ls[i].(lineWidth := Some(2)) else ls[i])
  }

  /** The layer list after `polygon-<h>` is highlighted. */
  function HighlightedLayers(ls: seq<Layer>, h: string): seq<Layer>
  {
    MoveBefore(WithLineWidth(ls, GetLayerId("polygon", h), 5), GetLayerId("raster", h), GetLayerId("polygon", h))
  }

  /** The highlighted branch of the effect. */
  method Highlight(m: Map, h: string)
    requires m.Valid()
    modifies m`layers
    ensures m.Valid()
    ensures m.layers == HighlightedLayers(old(m.layers), h)
  {
    var polygonId := GetLayerId("polygon", h);
    var rasterId := GetLayerId("raster", h);
    if m.LayerExists(polygonId) {
      m.SetLineWidth(polygonId, 5);
    } else {
      assert WithLineWidth(m.layers, polygonId, 5) == m.layers;
    }
    if m.LayerExists(rasterId) && m.LayerExists(polygonId) {
      m.MoveLayer(rasterId, polygonId);
    }
  }

  /** The branch without a highlight: every selected outline is reset. */
  method Unhighlight(m: Map)
    requires m.Valid()
    modifies m`layers
    ensures m.Valid()
    ensures m.layers == UnhighlightedLayers(old(m.layers))
  {
    ghost var ls := m.layers;
    var targets := HighlightedOutlines(m.layers);
    var k := 0;
    while k < |targets|
      invariant 0 <= k <= |targets|
      invariant m.Valid()
      invariant m.layers == WithWidthTwo(ls, IdSet(targets[..k]))
    {
      m.SetLineWidth(targets[k], 2);
      assert IdSet(targets[..k + 1]) == IdSet(targets[..k]) + {targets[k]} by {
        assert targets[..k + 1] == targets[..k] + [targets[k]];
      }
      k := k + 1;
    }
    assert targets[..k] == targets;
    forall i | 0 <= i < |ls|
      ensures m.layers[i] == UnhighlightedLayers(ls)[i]
    {
      if ls[i].id in targets {
        var j :| 0 <= j < |ls| && ls[j].id == ls[i].id && IsHighlightedOutline(ls[j]);
        assert i == j;
      }
    }
  }

  /** The effect on `highlightedLayer`: a truthy id highlights that plume,
      a falsy one resets every highlighted outline to width 2. */
  method HighlightEffect(m: Map?, highlighted: Option<string>)
    requires m != null ==> m.Valid()
    modifies m
    ensures m != null ==> m.Valid()
    ensures m != null ==> (m.sources == old(m.sources) && m.listeners == old(m.listeners)
      && m.styleLoaded == old(m.styleLoaded) && m.onStyleLoad == old(m.onStyleLoad))
    ensures m != null && highlighted.Some? && highlighted.value != "" ==>
      m.layers == HighlightedLayers(old(m.layers), highlighted.value)
    ensures m != null && (highlighted.None? || highlighted.value == "") ==>
      m.layers == UnhighlightedLayers(old(m.layers))
  {
    if m == null {
      return;
    }
    if highlighted.Some? && highlighted.value != "" {
      Highlight(m, highlighted.value);
    } else {
      Unhighlight(m);
    }
  }

  /** Clearing leaves no highlighted outline, changes only the width of the
      outlines it resets, and a second clear changes nothing. */
  lemma UnhighlightFacts(ls: seq<Layer>)
    ensures var r := UnhighlightedLayers(ls);
      && |r| == |ls|
      && (forall i :: 0 <= i < |r| ==> !IsHighlightedOutline(r[i]))
      && (forall i :: 0 <= i < |r| && !IsHighlightedOutline(ls[i]) ==> r[i] == ls[i])
      && (forall i :: 0 <= i < |r| && IsHighlightedOutline(ls[i]) ==> r[i] == ls[i].(lineWidth := Some(2)))
      && UnhighlightedLayers(r) == r
  {
  }

  /** When the plume's outline exists it ends with width 5, and when its
      raster exists too the raster sits directly below it; nothing is lost. */
  lemma HighlightFacts(ls: seq<Layer>, h: string)
    requires UniqueIds(ls)
    requires HasLayer(ls, GetLayerId("polygon", h))
    ensures var r := HighlightedLayers(ls, h);
      && |r| == |ls| && UniqueIds(r)
      && (exists i :: 0 <= i < |r| && r[i].id == GetLayerId("polygon", h) && r[i].lineWidth == Some(5))
      && (HasLayer(ls, GetLayerId("raster", h)) ==>
            exists k :: 0 <= k < |r| - 1 && r[k].id == GetLayerId("raster", h)
              && r[k + 1].id == GetLayerId("polygon", h))
  {
    var p, q := GetLayerId("polygon", h), GetLayerId("raster", h);
    assert p != q by { assert p[0] != q[0]; }
    var w := WithLineWidth(ls, p, 5);
    var kp := IndexOf(ls, p);
    assert w[kp].id == p && w[kp].lineWidth == Some(5);
    assert UniqueIds(w) by {
      forall i, j | 0 <= i < j < |w| ensures w[i].id != w[j].id {
        assert w[i].id == ls[i].id && w[j].id == ls[j].id;
      }
    }
    if HasLayer(ls, q) {
      var kq := IndexOf(ls, q);
      assert w[kq].id == q;
      MoveBeforeFacts(w, q, p);
      var r := HighlightedLayers(ls, h);
      assert w[kp] in r;
      var i :| 0 <= i < |r| && r[i] == w[kp];
    } else {
      forall i | 0 <= i < |w| ensures w[i].id != q {
        assert w[i].id == ls[i].id;
      }
    }
  }
}
