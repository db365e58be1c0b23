/** The per-frame render queue (Source/VectorTileRenderList.js): one bucket of
    render layers per style layer, in style order, so that the same style
    layer of every tile is drawn together and style layers are drawn in the
    order the style lists them. */
module RenderList {
  import opened Wrappers
  import opened RenderLayers

  /** A `VectorTileRenderList`: the style layer ids it was built for, one
      bucket per style layer, the id -> bucket index map (`None` once
      destroyed), and the tile id and tile commands of the frame. */
  datatype RenderList = RenderList(
    styleIds: seq<string>,
    buckets: seq<seq<RenderLayer>>,
    index: Option<map<string, nat>>,
    tileIdCommands: seq<DrawCommand>,
    tileCommands: seq<DrawCommand>)

  /** `new VectorTileRenderList(styleLayers)`. */
  function NewRenderList(styleIds: seq<string>): (r: RenderList)
    ensures r.styleIds == styleIds && r.buckets == [] && r.index == Some(map[])
    ensures r.tileIdCommands == [] && r.tileCommands == []
  {
    RenderList(styleIds, [], Some(map[]), [], [])
  }

  /** The id -> index assignments of `init`, in order: a later style layer
      with the same id takes the entry over. */
  function IndexIds(ids: seq<string>, m: map<string, nat>): map<string, nat>
    decreases |ids|
  {
    if |ids| == 0 then m else IndexIds(ids[..|ids| - 1], m)[ids[|ids| - 1] := |ids| - 1]
  }

  /** Every style id maps to the LAST position that carries it; other
      entries are kept. */
  lemma {:induction false} IndexIdsLastWins(ids: seq<string>, m: map<string, nat>, id: string)
    ensures id in IndexIds(ids, m) <==> id in m || id in ids
    ensures id in ids ==> var i := IndexIds(ids, m)[id];
                          i < |ids| && ids[i] == id && forall k | i < k < |ids| :: ids[k] != id
    ensures id !in ids && id in m ==> IndexIds(ids, m)[id] == m[id]
    decreases |ids|
  {
    if |ids| > 0 {
      var front := ids[..|ids| - 1];
      IndexIdsLastWins(front, m, id);
      assert id in ids <==> id in front || id == ids[|ids| - 1];
      assert forall k | 0 <= k < |front| :: front[k] == ids[k];
    }
  }

  /** `init()`: buckets `0..n-1` are emptied (created when missing), later
      buckets are left alone, every style id is indexed, and the command lists
      are emptied. With the index map gone, any style layer makes it throw
      (`None`). */
  function Init(l: RenderList): (r: Option<RenderList>)
    ensures r.None? <==> l.index.None? && |l.styleIds| > 0
    ensures r.Some? ==>
              var n := |l.styleIds|;
              r.value.styleIds == l.styleIds &&
              |r.value.buckets| == (if n > |l.buckets| then n else |l.buckets|) &&
              (forall k | 0 <= k < n :: r.value.buckets[k] == []) &&
              (forall k | n <= k < |l.buckets| :: r.value.buckets[k] == l.buckets[k]) &&
              (n == 0 ==> r.value.index == l.index) &&
              (l.index.Some? ==> r.value.index == Some(IndexIds(l.styleIds, l.index.value))) &&
              r.value.tileIdCommands == [] && r.value.tileCommands == []
  {
    var n := |l.styleIds|;
    if n == 0 then Some(l.(tileIdCommands := [], tileCommands := []))
    else if l.index.None? then None
    else
      var size := if n > |l.buckets| then n else |l.buckets|;
      var buckets := seq(size, k requires 0 <= k < size => if k < n then [] else l.buckets[k]);
      Some(RenderList(l.styleIds, buckets, Some(IndexIds(l.styleIds, l.index.value)), [], []))
  }

  /** `beginFrame()`: every bucket and both command lists emptied. */
  function BeginFrame(l: RenderList): (r: RenderList)
    ensures r.styleIds == l.styleIds && r.index == l.index && |r.buckets| == |l.buckets|
    ensures forall k | 0 <= k < |r.buckets| :: r.buckets[k] == []
    ensures r.tileIdCommands == [] && r.tileCommands == []
  {
    RenderList(l.styleIds, seq(|l.buckets|, k => []), l.index, [], [])
  }

  /** The bucket a layer goes to: the index of its style id, when the layer
      still has its style, the map exists and holds the id, and the bucket
      exists. */
  function Slot(l: RenderList, layer: RenderLayer): (r: Option<nat>)
    ensures r.Some? ==> r.value < |l.buckets|
  {
    match Id(layer)
    case None => None
    case Some(id) =>
      if l.index.Some? && id in l.index.value && l.index.value[id] < |l.buckets| then Some(l.index.value[id]) else None
  }

  /** `push(renderLayer)`: appended to its bucket; `None` where the source
      throws (no bucket for the layer). */
  function Push(l: RenderList, layer: RenderLayer): (r: Option<RenderList>)
    ensures r.None? <==> Slot(l, layer).None?
    ensures r.Some? ==>
              var i := Slot(l, layer).value;
              r.value == l.(buckets := r.value.buckets) && |r.value.buckets| == |l.buckets| &&
              r.value.buckets[i] == l.buckets[i] + [layer] &&
              forall k | 0 <= k < |l.buckets| && k != i :: r.value.buckets[k] == l.buckets[k]
  {
    match Slot(l, layer)
    case None => None
    case Some(i) => Some(l.(buckets := l.buckets[i := l.buckets[i] + [layer]]))
  }

  /** The buckets one after another. */
  function Flatten(buckets: seq<seq<RenderLayer>>): seq<RenderLayer>
    decreases |buckets|
  {
    if |buckets| == 0 then [] else Flatten(buckets[..|buckets| - 1]) + buckets[|buckets| - 1]
  }

  /** `getList()`. */
  function GetList(l: RenderList): (r: seq<RenderLayer>)
    ensures r == Flatten(l.buckets)
    ensures forall x | x in r :: exists k | 0 <= k < |l.buckets| :: x in l.buckets[k]
  {
    FlattenMembers(l.buckets);
    Flatten(l.buckets)
  }

  lemma {:induction false} FlattenMembers(buckets: seq<seq<RenderLayer>>)
    ensures forall x | x in Flatten(buckets) :: exists k | 0 <= k < |buckets| :: x in buckets[k]
    decreases |buckets|
  {
    if |buckets| > 0 {
      var front := buckets[..|buckets| - 1];
      FlattenMembers(front);
      forall x | x in Flatten(buckets)
        ensures exists k | 0 <= k < |buckets| :: x in buckets[k]
      {
        if x in Flatten(front) {
          var k :| 0 <= k < |front| && x in front[k];
          assert buckets[k] == front[k];
        } else {
          assert x in buckets[|buckets| - 1];
        }
      }
    }
  }

  /** Flattening splits at any bucket. */
  lemma {:induction false} FlattenSplit(buckets: seq<seq<RenderLayer>>, i: nat)
    requires i < |buckets|
    ensures Flatten(buckets) == Flatten(buckets[..i]) + buckets[i] + Flatten(buckets[i + 1..])
    decreases |buckets|
  {
    if i < |buckets| - 1 {
      var front := buckets[..|buckets| - 1];
      FlattenSplit(front, i);
      assert front[..i] == buckets[..i] && front[i] == buckets[i];
      var tail := buckets[i + 1..];
      assert tail[..|tail| - 1] == front[i + 1..];
      assert tail[|tail| - 1] == buckets[|buckets| - 1];
    } else {
      assert buckets[..|buckets| - 1] == buckets[..i];
      assert buckets[i + 1..] == [];
    }
  }

  /** A pushed layer lands right after everything already queued for its own
      and every earlier style layer, and before everything queued for later
      style layers. */
  lemma PushThenGetList(l: RenderList, layer: RenderLayer)
    requires Slot(l, layer).Some?
    ensures var i := Slot(l, layer).value;
            GetList(Push(l, layer).value) == Flatten(l.buckets[..i + 1]) + [layer] + Flatten(l.buckets[i + 1..])
  {
    var i := Slot(l, layer).value;
    var b := Push(l, layer).value.buckets;
    FlattenSplit(b, i);
    FlattenSplit(l.buckets, i);
    assert b[..i] == l.buckets[..i];
    assert b[i + 1..] == l.buckets[i + 1..];
    assert l.buckets[..i + 1][..i] == l.buckets[..i];
    assert Flatten(l.buckets[..i + 1]) == Flatten(l.buckets[..i]) + l.buckets[i];
  }

  /** After `beginFrame` the list is empty. */
  lemma {:induction false} BeginFrameEmpties(l: RenderList)
    ensures GetList(BeginFrame(l)) == []
  {
    var b := BeginFrame(l).buckets;
    FlattenOfEmpties(b);
  }

  lemma {:induction false} FlattenOfEmpties(buckets: seq<seq<RenderLayer>>)
    requires forall k | 0 <= k < |buckets| :: buckets[k] == []
    ensures Flatten(buckets) == []
    decreases |buckets|
  {
    if |buckets| > 0 {
      FlattenOfEmpties(buckets[..|buckets| - 1]);
    }
  }

  /** The layers of `layers` whose bucket is `k`, in order. */
  function InBucket(l: RenderList, layers: seq<RenderLayer>, k: nat): (r: seq<RenderLayer>)
    ensures forall x | x in r :: x in layers && Slot(l, x) == Some(k)
    decreases |layers|
  {
    if |layers| == 0 then []
    else InBucket(l, layers[..|layers| - 1], k) +
         (if Slot(l, layers[|layers| - 1]) == Some(k) then [layers[|layers| - 1]] else [])
  }

  /** Pushing layers one after another; `None` as soon as one push throws. */
  function PushAll(l: RenderList, layers: seq<RenderLayer>): (r: Option<RenderList>)
    ensures r.Some? ==> r.value == l.(buckets := r.value.buckets) && |r.value.buckets| == |l.buckets|
    decreases |layers|
  {
    if |layers| == 0 then Some(l)
    else
      match PushAll(l, layers[..|layers| - 1])
      case None => None
      case Some(m) => Push(m, layers[|layers| - 1])
  }

  /** Pushing fails exactly when some layer has no bucket. */
  lemma {:induction false} PushAllFails(l: RenderList, layers: seq<RenderLayer>)
    ensures PushAll(l, layers).None? <==> exists j | 0 <= j < |layers| :: Slot(l, layers[j]).None?
    decreases |layers|
  {
    if |layers| > 0 {
      var front := layers[..|layers| - 1];
      var x := layers[|layers| - 1];
      PushAllFails(l, front);
      if PushAll(l, front).None? {
        var j :| 0 <= j < |front| && Slot(l, front[j]).None?;
        assert layers[j] == front[j];
      } else {
        var m := PushAll(l, front).value;
        assert Slot(m, x) == Slot(l, x);
        if Slot(l, x).Some? {
          forall j | 0 <= j < |layers| ensures Slot(l, layers[j]).Some? {
            if j < |front| { assert layers[j] == front[j]; }
          }
        }
      }
    }
  }

  /** The pushes of a frame group the layers by style layer: each bucket gets
      exactly the layers of its style layer, in the order they were pushed. */
  lemma {:induction false} PushAllGroups(l: RenderList, layers: seq<RenderLayer>, k: nat)
    requires PushAll(l, layers).Some? && k < |l.buckets|
    ensures PushAll(l, layers).value.buckets[k] == l.buckets[k] + InBucket(l, layers, k)
    decreases |layers|
  {
    if |layers| > 0 {
      var front := layers[..|layers| - 1];
      var x := layers[|layers| - 1];
      var m := PushAll(l, front).value;
      PushAllGroups(l, front, k);
      assert Slot(m, x) == Slot(l, x);
    }
  }

  /** `destroy()`: the style layer list and the buckets are emptied and the
      index map dropped; the closing `init` then has no style layer to visit. */
  function Destroy(l: RenderList): (r: RenderList)
    ensures r.styleIds == [] && r.buckets == [] && r.index.None?
    ensures r.tileIdCommands == [] && r.tileCommands == []
    ensures GetList(r) == []
  {
    Init(RenderList([], [], None, l.tileIdCommands, l.tileCommands)).value
  }

  /** Once destroyed, every push throws. */
  lemma DestroyedRejectsPush(l: RenderList, layer: RenderLayer)
    ensures Push(Destroy(l), layer).None?
  {
  }
}
