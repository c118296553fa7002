/** The layer visibility button of `src/components/map/mapControls/layerVisibility.jsx`
    (`VisibilityIconComp`): one click hides every raster layer and records
    what each was showing, the next click puts the recorded values back. */
module LayerVisibility {
  import opened Wrappers
  import opened Text
  import opened MapSurface

  /** A layer the hide step records and hides: its id contains `raster-`
      and it has a layout object. */
  predicate Recorded(l: Layer) {
    Contains(l.id, "raster-") && l.layout.Some?
  }

  /** `rasterLayersCurrentVisibility` after the hide step over `ls`. */
  function SavedVisibility(ls: seq<Layer>): map<string, Visibility>
    decreases |ls|
  {
    if |ls| == 0 then map[]
    else
      var l := ls[|ls| - 1];
      var saved := SavedVisibility(ls[..|ls| - 1]);
      if Recorded(l) then saved[l.id := l.layout.value] else saved
  }

  /** The layer list after the hide step: recorded layers set to `'none'`. */
  function HiddenLayers(ls: seq<Layer>): (r: seq<Layer>)
    ensures |r| == |ls|
    ensures forall i :: 0 <= i < |ls| ==>
      r[i] == if Recorded(ls[i]) then ls[i].(layout := Some(Hidden)) else ls[i]
  {
    seq(|ls|, i requires 0 <= i < |ls| => if Recorded(ls[i]) then ls[i].(layout := Some(Hidden)) else ls[i])
  }

  /** The layer list after the show step: every layer whose id was recorded
      gets its recorded visibility back. */
  function Restored(ls: seq<Layer>, saved: map<string, Visibility>): (r: seq<Layer>)
    ensures |r| == |ls|
    ensures forall i :: 0 <= i < |ls| ==>
      r[i] == if ls[i].id in saved then ls[i].(layout := Some(saved[ls[i].id])) else ls[i]
  {
    seq(|ls|, i requires 0 <= i < |ls| =>
      if ls[i].id in saved then ls[i].(layout := Some(saved[ls[i].id])) else ls[i])
  }

  /** With distinct ids, the record holds exactly the recorded layers, each
      with the visibility it had. */
  lemma {:induction false} SavedVisibilityFacts(ls: seq<Layer>)
    requires UniqueIds(ls)
    ensures forall i :: 0 <= i < |ls| ==> (ls[i].id in SavedVisibility(ls) <==> Recorded(ls[i]))
    ensures forall i :: 0 <= i < |ls| && Recorded(ls[i]) ==> SavedVisibility(ls)[ls[i].id] == ls[i].layout.value
    ensures forall id :: id in SavedVisibility(ls) ==> HasLayer(ls, id)
    decreases |ls|
  {
    if |ls| > 0 {
      var n := |ls| - 1;
      var pre := ls[..n];
      assert UniqueIds(pre) by {
        forall i, j | 0 <= i < j < |pre| ensures pre[i].id != pre[j].id {
          assert pre[i] == ls[i] && pre[j] == ls[j];
        }
      }
      SavedVisibilityFacts(pre);
      var before := SavedVisibility(pre);
      assert SavedVisibility(ls) == if Recorded(ls[n]) then before[ls[n].id := ls[n].layout.value] else before;
      forall i | 0 <= i < n ensures ls[i].id != ls[n].id && pre[i] == ls[i] { }
      forall id | id in SavedVisibility(ls) ensures HasLayer(ls, id) {
        if id in before {
          var k :| 0 <= k < |pre| && pre[k].id == id;
          assert ls[k].id == id;
        } else {
          assert ls[n].id == id;
        }
      }
    }
  }

  /** Hiding and then showing gives back the layer list as it was. */
  lemma HideThenShow(ls: seq<Layer>)
    requires UniqueIds(ls)
    ensures Restored(HiddenLayers(ls), SavedVisibility(ls)) == ls
  {
    SavedVisibilityFacts(ls);
    var r := Restored(HiddenLayers(ls), SavedVisibility(ls));
    forall i | 0 <= i < |ls| ensures r[i] == ls[i] {
      assert HiddenLayers(ls)[i].id == ls[i].id;
    }
  }

  /** The hide step over the first `k` layers only. */
  function HiddenUpTo(ls: seq<Layer>, k: nat): (r: seq<Layer>)
    ensures |r| == |ls|
  {
    seq(|ls|, i requires 0 <= i < |ls| =>
      if i < k && Recorded(ls[i]) then ls[i].(layout := Some(Hidden)) else ls[i])
  }

  /** Hiding one more layer is one `setLayoutProperty` call when it is
      recorded, and nothing otherwise. */
  lemma HiddenUpToStep(ls: seq<Layer>, i: nat)
    requires UniqueIds(ls) && i < |ls|
    ensures HiddenUpTo(ls, i + 1) == if Recorded(ls[i])
      then WithVisibility(HiddenUpTo(ls, i), ls[i].id, Hidden) else HiddenUpTo(ls, i)
  {
    var prev, next := HiddenUpTo(ls, i), HiddenUpTo(ls, i + 1);
    if Recorded(ls[i]) {
      var r := WithVisibility(prev, ls[i].id, Hidden);
      forall j | 0 <= j < |ls| ensures next[j] == r[j] {
        assert prev[j].id == ls[j].id;
      }
    } else {
      assert forall j :: 0 <= j < |ls| ==> next[j] == prev[j];
    }
  }

  /** The record restricted to the ids already restored. */
  function Restrict(saved: map<string, Visibility>, done: set<string>): (r: map<string, Visibility>)
    ensures r.Keys == saved.Keys * done
    ensures forall id :: id in r ==> r[id] == saved[id]
  {
    map id | id in saved && id in done :: saved[id]
  }

  class VisibilityToggle {
    /** The `isVisible` state. */
    var isVisible: bool
    /** `rasterLayersCurrentVisibility.current`. */
    var saved: map<string, Visibility>
    /** The values handed to `onClickHandler`, oldest first. */
    var notified: seq<bool>

    constructor()
      ensures isVisible && saved == map[] && notified == []
    {
      isVisible := true;
      saved := map[];
      notified := [];
    }

    /** The hide branch: record and hide every raster layer with a layout. */
    method HideRasters(m: Map)
      requires m.Valid()
      modifies m`layers, this`saved
      ensures m.Valid()
      ensures saved == SavedVisibility(old(m.layers))
      ensures m.layers == HiddenLayers(old(m.layers))
    {
      saved := map[];
      var layers := m.layers;
      var i := 0;
      while i < |layers|
        invariant 0 <= i <= |layers|
        invariant m.Valid() && UniqueIds(layers)
        invariant saved == SavedVisibility(layers[..i])
        invariant m.layers == HiddenUpTo(layers, i)
      {
        var layer := layers[i];
        assert layers[..i + 1][..i] == layers[..i];
        if Recorded(layer) {
          saved := saved[layer.id := layer.layout.value];
          m.SetVisibility(layer.id, Hidden);
        }
        HiddenUpToStep(layers, i);
        i := i + 1;
      }
      assert layers[..i] == layers;
    }

    /** The show branch: put every recorded visibility back. */
    method ShowRasters(m: Map)
      requires m.Valid()
      modifies m`layers
      ensures m.Valid()
      ensures m.layers == Restored(old(m.layers), saved)
    {
      var layers := m.layers;
      var remaining := saved.Keys;
      while remaining != {}
        invariant remaining <= saved.Keys
        invariant m.Valid()
        invariant m.layers == Restored(layers, Restrict(saved, saved.Keys - remaining))
        decreases |remaining|
      {
        var id :| id in remaining;
        ghost var before := m.layers;
        m.SetVisibility(id, saved[id]);
        remaining := remaining - {id};
        assert m.layers == Restored(layers, Restrict(saved, saved.Keys - remaining)) by {
          var r := Restored(layers, Restrict(saved, saved.Keys - remaining));
          forall j | 0 <= j < |layers| ensures m.layers[j] == r[j] {
            assert before[j].id == layers[j].id;
          }
        }
      }
      assert Restrict(saved, saved.Keys - remaining) == saved;
    }

    /** `toggleLayers`: nothing without a map; otherwise hide or show
        according to `isVisible`, notify the handler (if any) of the new
        value and flip `isVisible`. */
    method ToggleLayers(m: Map?, hasHandler: bool)
      requires m != null ==> m.Valid()
      modifies this, m
      ensures m == null ==> isVisible == old(isVisible) && saved == old(saved) && notified == old(notified)
      ensures m != null ==> m.Valid() && m.sources == old(m.sources) && m.listeners == old(m.listeners)
      ensures m != null ==> m.styleLoaded == old(m.styleLoaded) && m.onStyleLoad == old(m.onStyleLoad)
      ensures m != null && old(isVisible) ==>
        saved == SavedVisibility(old(m.layers)) && m.layers == HiddenLayers(old(m.layers))
      ensures m != null && !old(isVisible) ==>
        saved == old(saved) && m.layers == Restored(old(m.layers), old(saved))
      ensures m != null ==>
        isVisible == !old(isVisible)
        && notified == old(notified) + (if hasHandler then [!old(isVisible)] else [])
    {
      if m == null {
        return;
      }
      if isVisible {
        HideRasters(m);
      } else {
        ShowRasters(m);
      }
      if hasHandler {
        notified := notified + [!isVisible];
      }
      isVisible := !isVisible;
    }
  }
}
