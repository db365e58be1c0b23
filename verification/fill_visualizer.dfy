/** The batch bookkeeping of the fill visualizer
    (Source/layers/visualizers/FillLayerVisualizer.js): every kept polygon of
    every fill layer of a tile becomes one geometry instance whose batch id is
    its position among the instances; after Cesium has merged the instances,
    the index ranges of each batch id give each layer one draw range per merged
    geometry ("pass"), and each layer gets one draw command per pass.
    Subdivision, vertex transformation, colours and the Cesium primitive itself
    are not modelled; the primitive's behaviour in one `update` is an input. */
module FillVisualizer {
  import opened Wrappers
  import opened Features
  import opened RenderLayers
  import opened Visualizers

  // ---------------------------------------------------------------------
  // addLayer: consecutive batch ids.

  /** The geometry instance built for one kept polygon. */
  datatype FillInstance = FillInstance(batchId: nat, featureId: nat, rings: seq<seq<Position>>, sourceId: nat)

  /** A `FillLayerVisualizer`: the base fields, the pending geometry instances
      (`None` once destroyed) and whether the primitive has been created. */
  datatype Fill = Fill(base: Visualizer<RenderLayer>, instances: Option<seq<FillInstance>>, primitive: bool)

  /** `new FillLayerVisualizer(tile)`. */
  function NewFill(tile: TileRef): (v: Fill)
    ensures v.base.state == VisNone && v.base.layers == [] && v.base.tile == Some(tile)
    ensures v.instances == Some([]) && !v.primitive
  {
    Fill(NewVisualizer(tile, None), Some([]), false)
  }

  /** The polygons `classifyRings` yields for a feature of vector-tile type
      Polygon; features of any other type are skipped. */
  function PolygonsOf(g: Geometry): seq<seq<seq<Position>>> {
    match g
    case Polygon(rings) => [rings]
    case MultiPolygon(polygons) => polygons
    case _ => []
  }

  /** No ring has fewer than three points. */
  predicate Drawable(polygon: seq<seq<Position>>) {
    forall i | 0 <= i < |polygon| :: |polygon[i]| >= 3
  }

  /** A kept polygon with the id of the feature it came from. */
  datatype Kept = Kept(sourceId: nat, rings: seq<seq<Position>>)

  function KeepPolygons(sourceId: nat, polygons: seq<seq<seq<Position>>>): (r: seq<Kept>)
    ensures forall k | 0 <= k < |r| :: r[k].sourceId == sourceId && Drawable(r[k].rings) && r[k].rings in polygons
    ensures forall p | p in polygons && Drawable(p) :: Kept(sourceId, p) in r
    decreases |polygons|
  {
    if |polygons| == 0 then []
    else if Drawable(polygons[0]) then [Kept(sourceId, polygons[0])] + KeepPolygons(sourceId, polygons[1..])
    else KeepPolygons(sourceId, polygons[1..])
  }

  /** A feature contributes polygons when it is of polygon type and its
      `fill-pattern` value (`fillPattern`) is falsy. */
  predicate Contributes(f: Feature, fillPattern: Feature -> bool) {
    f.geometry.Some? && (f.geometry.value.Polygon? || f.geometry.value.MultiPolygon?) && !fillPattern(f)
  }

  /** The polygons `addLayer` keeps, feature by feature, in order. */
  function KeptPolygons(features: seq<Feature>, fillPattern: Feature -> bool): (r: seq<Kept>)
    ensures forall k | 0 <= k < |r| :: Drawable(r[k].rings)
    decreases |features|
  {
    if |features| == 0 then []
    else
      var f := features[0];
      var here := if Contributes(f, fillPattern) then KeepPolygons(f.id, PolygonsOf(f.geometry.value)) else [];
      here + KeptPolygons(features[1..], fillPattern)
  }

  /** Some contributing feature of `features` has id `id`. */
  predicate FromContributor(features: seq<Feature>, fillPattern: Feature -> bool, id: nat) {
    exists f | f in features :: Contributes(f, fillPattern) && f.id == id
  }

  /** Every kept polygon carries the id of a contributing feature. */
  lemma {:induction false} KeptPolygonsSources(features: seq<Feature>, fillPattern: Feature -> bool)
    ensures forall k | 0 <= k < |KeptPolygons(features, fillPattern)| ::
              FromContributor(features, fillPattern, KeptPolygons(features, fillPattern)[k].sourceId)
    decreases |features|
  {
    if |features| > 0 {
      var f := features[0];
      var here := if Contributes(f, fillPattern) then KeepPolygons(f.id, PolygonsOf(f.geometry.value)) else [];
      var rest := KeptPolygons(features[1..], fillPattern);
      KeptPolygonsSources(features[1..], fillPattern);
      var r := here + rest;
      forall k | 0 <= k < |r| ensures FromContributor(features, fillPattern, r[k].sourceId) {
        if k < |here| {
          assert Contributes(f, fillPattern) && r[k] == here[k] && here[k].sourceId == f.id && f == features[0];
        } else {
          var j := k - |here|;
          assert 0 <= j < |rest| && r[k] == rest[j];
          assert FromContributor(features[1..], fillPattern, rest[j].sourceId);
          var g :| g in features[1..] && Contributes(g, fillPattern) && g.id == rest[j].sourceId;
          assert g in features;
        }
      }
    }
  }

  /** Every drawable polygon of a contributing feature is kept. */
  lemma {:induction false} KeptPolygonsComplete(features: seq<Feature>, fillPattern: Feature -> bool)
    ensures var r := KeptPolygons(features, fillPattern);
            forall f, p | f in features && Contributes(f, fillPattern) && p in PolygonsOf(f.geometry.value) && Drawable(p) ::
              Kept(f.id, p) in r
    decreases |features|
  {
    if |features| > 0 {
      KeptPolygonsComplete(features[1..], fillPattern);
      var f := features[0];
      forall g, p | g in features && Contributes(g, fillPattern) && p in PolygonsOf(g.geometry.value) && Drawable(p)
        ensures Kept(g.id, p) in KeptPolygons(features, fillPattern)
      {
        if g != f {
          assert g in features[1..];
        }
      }
    }
  }

  /** Every instance's batch id is its index. */
  predicate ConsecutiveIds(instances: seq<FillInstance>) {
    forall k | 0 <= k < |instances| :: instances[k].batchId == k
  }

  /** `addLayer(features, layer)`: the kept polygons are appended as instances
      numbered from the current instance count; the layer records the first
      and last of those numbers (keeping its old values when nothing is kept),
      gets empty offsets and counts, and joins the visualizer's layers. */
  function AddLayer(v: Fill, features: seq<Feature>, layer: RenderLayer, fillPattern: Feature -> bool): (r: Fill)
    requires v.instances.Some?
    ensures r.instances.Some? && r.primitive == v.primitive && r.base.state == v.base.state
    ensures |r.instances.value| >= |v.instances.value| && r.instances.value[..|v.instances.value|] == v.instances.value
    ensures ConsecutiveIds(v.instances.value) ==> ConsecutiveIds(r.instances.value)
    ensures forall k | |v.instances.value| <= k < |r.instances.value| :: Drawable(r.instances.value[k].rings)
    ensures var kept := KeptPolygons(features, fillPattern); var n := |v.instances.value|;
            |r.instances.value| == n + |kept| &&
            forall k | 0 <= k < |kept| ::
              r.instances.value[n + k] == FillInstance(n + k, k, kept[k].rings, kept[k].sourceId)
    ensures |r.base.layers| == |v.base.layers| + 1 && r.base.layers[..|v.base.layers|] == v.base.layers
    ensures var l := r.base.layers[|v.base.layers|];
            l.offsets == Some(map[]) && l.counts == Some(map[]) &&
            l == layer.(firstBatchId := l.firstBatchId, lastBatchId := l.lastBatchId, offsets := l.offsets, counts := l.counts) &&
            (|r.instances.value| == |v.instances.value| ==>
               l.firstBatchId == layer.firstBatchId && l.lastBatchId == layer.lastBatchId) &&
            (|r.instances.value| > |v.instances.value| ==>
               l.firstBatchId == |v.instances.value| && l.lastBatchId == |r.instances.value| - 1)
  {
    var kept := KeptPolygons(features, fillPattern);
    var n := |v.instances.value|;
    var added := seq(|kept|, k requires 0 <= k < |kept| => FillInstance(n + k, k, kept[k].rings, kept[k].sourceId));
    var l := layer.(firstBatchId := if |kept| > 0 then n else layer.firstBatchId,
                    lastBatchId := if |kept| > 0 then n + |kept| - 1 else layer.lastBatchId,
                    offsets := Some(map[]), counts := Some(map[]));
    var instances := v.instances.value + added;
    assert instances[..n] == v.instances.value;
    assert (v.base.layers + [l])[..|v.base.layers|] == v.base.layers;
    Fill(v.base.(layers := v.base.layers + [l]), Some(instances), v.primitive)
  }

  /** A layer's batch range covers exactly the instances its `addLayer` made. */
  lemma LayerRangeCoversItsInstances(v: Fill, features: seq<Feature>, layer: RenderLayer, fillPattern: Feature -> bool)
    requires v.instances.Some? && ConsecutiveIds(v.instances.value)
    ensures var r := AddLayer(v, features, layer, fillPattern);
            var l := r.base.layers[|v.base.layers|];
            forall k | |v.instances.value| <= k < |r.instances.value| ::
              l.firstBatchId <= r.instances.value[k].batchId <= l.lastBatchId
  {
  }

  // ---------------------------------------------------------------------
  // onGeometriesLoaded: index runs and per-layer draw ranges.

  /** The index range `[begin, end]` recorded for a batch id. */
  datatype Span = Span(begin: nat, end: nat)

  /** `s` is a maximal run of `id` in `ids[..n]`, and no later position of
      the prefix carries `id` again. */
  predicate RunOk(ids: seq<nat>, n: nat, id: int, s: Span)
    requires n <= |ids|
  {
    s.begin <= s.end < n &&
    (forall k | s.begin <= k <= s.end :: ids[k] == id) &&
    (s.begin == 0 || ids[s.begin - 1] != id) &&
    (s.end + 1 == n || ids[s.end + 1] != id) &&
    (forall k | s.end < k < n :: ids[k] != id)
  }

  /** `b` is what the scan of `ids[..n]` records: every id seen has a record,
      and each record is the run of its id that the prefix ends with (a
      reappearing id keeps its later run). */
  ghost predicate RunsOf(ids: seq<nat>, n: nat, b: map<int, Span>)
    requires n <= |ids|
  {
    (forall k | 0 <= k < n :: ids[k] as int in b) &&
    (forall id | id in b :: RunOk(ids, n, id, b[id]))
  }

  /** One step of the scan at index position `i`: a batch id different from
      the previous position's starts a new record, overwriting any earlier
      record of the same id; an equal one extends the current record. */
  function ScanStep(ids: seq<nat>, i: nat, prev: map<int, Span>): map<int, Span>
    requires i < |ids|
    requires i > 0 && ids[i] == ids[i - 1] ==> ids[i] as int in prev
  {
    if i == 0 || ids[i] != ids[i - 1] then prev[ids[i] := Span(i, i)]
    else prev[ids[i] := Span(prev[ids[i]].begin, i)]
  }

  lemma RunOkOther(ids: seq<nat>, i: nat, id: int, s: Span)
    requires i < |ids| && RunOk(ids, i, id, s) && ids[i] != id
    ensures RunOk(ids, i + 1, id, s)
  {
  }

  lemma RunOkExtend(ids: seq<nat>, i: nat, s: Span)
    requires 0 < i < |ids| && ids[i] == ids[i - 1] && RunOk(ids, i, ids[i], s)
    ensures s.end == i - 1 && RunOk(ids, i + 1, ids[i], Span(s.begin, i))
  {
  }

  lemma RunsExtend(ids: seq<nat>, i: nat, prev: map<int, Span>)
    requires i < |ids| && RunsOf(ids, i, prev)
    ensures i > 0 && ids[i] == ids[i - 1] ==> ids[i] as int in prev
    ensures RunsOf(ids, i + 1, ScanStep(ids, i, prev))
  {
    var v: int := ids[i];
    if i > 0 {
      assert ids[i - 1] as int in prev;
    }
    var b := ScanStep(ids, i, prev);
    forall id | id in b
      ensures RunOk(ids, i + 1, id, b[id])
    {
      if id != v {
        RunOkOther(ids, i, id, prev[id]);
      } else if i > 0 && ids[i] == ids[i - 1] {
        RunOkExtend(ids, i, prev[v]);
      }
    }
  }

  /** The batch-id scan over the first `n` index positions of one merged
      geometry; `ids[i]` is the batch id of the vertex at index position `i`. */
  function Batches(ids: seq<nat>, n: nat): (b: map<int, Span>)
    requires n <= |ids|
    ensures RunsOf(ids, n, b)
    decreases n
  {
    if n == 0 then map[]
    else
      var prev := Batches(ids, n - 1);
      RunsExtend(ids, n - 1, prev);
      ScanStep(ids, n - 1, prev)
  }

  /** A merged geometry: the batch id of every vertex and the triangle index array. */
  datatype BatchedGeometry = BatchedGeometry(batchIds: seq<nat>, indices: seq<nat>)

  predicate WellIndexed(g: BatchedGeometry) {
    forall i | 0 <= i < |g.indices| :: g.indices[i] < |g.batchIds|
  }

  /** The batch id at every index position. */
  function IndexBatchIds(g: BatchedGeometry): (ids: seq<nat>)
    requires WellIndexed(g)
    ensures |ids| == |g.indices| && forall i | 0 <= i < |ids| :: ids[i] == g.batchIds[g.indices[i]]
  {
    seq(|g.indices|, i requires 0 <= i < |g.indices| => g.batchIds[g.indices[i]])
  }

  /** The loop over batch ids `id..last` of one layer, carrying the begin of
      the first recorded id and the end of the latest one. */
  function ScanRange(b: map<int, Span>, id: int, last: int, begin: int, end: int): (int, int)
    decreases if id > last then 0 else last - id + 1
  {
    if id > last then (begin, end)
    else if id in b then ScanRange(b, id + 1, last, if begin == -1 then b[id].begin else begin, b[id].end)
    else ScanRange(b, id + 1, last, begin, end)
  }

  /** The lowest batch id in `[lo, hi]` that has a record. */
  function FirstIn(b: map<int, Span>, lo: int, hi: int): (r: Option<int>)
    ensures r.None? <==> forall k | lo <= k <= hi :: k !in b
    ensures r.Some? ==> lo <= r.value <= hi && r.value in b && forall k | lo <= k < r.value :: k !in b
    decreases if lo > hi then 0 else hi - lo + 1
  {
    if lo > hi then None else if lo in b then Some(lo) else FirstIn(b, lo + 1, hi)
  }

  /** The highest batch id in `[lo, hi]` that has a record. */
  function LastIn(b: map<int, Span>, lo: int, hi: int): (r: Option<int>)
    ensures r.None? <==> forall k | lo <= k <= hi :: k !in b
    ensures r.Some? ==> lo <= r.value <= hi && r.value in b && forall k | r.value < k <= hi :: k !in b
    decreases if lo > hi then 0 else hi - lo + 1
  {
    if lo > hi then None else if hi in b then Some(hi) else LastIn(b, lo, hi - 1)
  }

  /** The upward scan keeps the begin of the lowest recorded id and ends with
      the end of the highest one. */
  lemma {:induction false} ScanRangeFinds(b: map<int, Span>, id: int, last: int, begin: int, end: int)
    ensures FirstIn(b, id, last).None? ==> ScanRange(b, id, last, begin, end) == (begin, end)
    ensures FirstIn(b, id, last).Some? ==>
              ScanRange(b, id, last, begin, end) ==
              (if begin == -1 then b[FirstIn(b, id, last).value].begin else begin, b[LastIn(b, id, last).value].end)
    decreases if id > last then 0 else last - id + 1
  {
    if id <= last {
      if id in b {
        var begin' := if begin == -1 then b[id].begin else begin;
        ScanRangeFinds(b, id + 1, last, begin', b[id].end);
        if FirstIn(b, id + 1, last).None? {
          assert LastIn(b, id, last) == Some(id);
        } else {
          assert LastIn(b, id, last) == LastIn(b, id + 1, last);
        }
      } else {
        ScanRangeFinds(b, id + 1, last, begin, end);
        assert FirstIn(b, id, last) == FirstIn(b, id + 1, last);
        assert LastIn(b, id, last) == LastIn(b, id + 1, last);
      }
    }
  }

  /** A layer's draw range in one pass. */
  datatype DrawRange = DrawRange(offset: int, count: int)

  /** The range of batch ids `[first, last]` of a layer in one pass: nothing
      when either bound is -1 or no id of the range has a record; otherwise it
      starts at the begin of the lowest recorded id and ends at the end of the
      highest one. */
  function LayerRange(b: map<int, Span>, first: int, last: int): (r: Option<DrawRange>)
    ensures r.None? <==> first == -1 || last == -1 || forall k | first <= k <= last :: k !in b
    ensures r.Some? ==>
              var lo := FirstIn(b, first, last).value;
              var hi := LastIn(b, first, last).value;
              r.value == DrawRange(b[lo].begin, b[hi].end - b[lo].begin + 1)
  {
    if first == -1 || last == -1 then None
    else
      ScanRangeFinds(b, first, last, -1, -1);
      var (begin, end) := ScanRange(b, first, last, -1, -1);
      if begin == -1 || end == -1 then None else Some(DrawRange(begin, end - begin + 1))
  }

  predicate HasRanges(l: RenderLayer) {
    l.offsets.Some? && l.counts.Some?
  }

  /** `m` and `m'` agree on key `p`. */
  predicate SameAt(m: map<nat, int>, m': map<nat, int>, p: nat) {
    (p in m <==> p in m') && (p in m ==> m[p] == m'[p])
  }

  /** The layer after pass `pass` recorded (or skipped) its range. */
  function AssignRange(l: RenderLayer, pass: nat, rg: Option<DrawRange>): (r: RenderLayer)
    requires HasRanges(l)
    ensures HasRanges(r) && r == l.(offsets := r.offsets, counts := r.counts)
    ensures forall p: nat | p != pass :: SameAt(r.offsets.value, l.offsets.value, p) && SameAt(r.counts.value, l.counts.value, p)
    ensures rg.None? ==> r == l
    ensures rg.Some? ==> pass in r.offsets.value && r.offsets.value[pass] == rg.value.offset &&
                         pass in r.counts.value && r.counts.value[pass] == rg.value.count
  {
    match rg
    case None => l
    case Some(rg) => l.(offsets := Some(l.offsets.value[pass := rg.offset]), counts := Some(l.counts.value[pass := rg.count]))
  }

  /** The batch records of every merged geometry. */
  function PassBatches(geometries: seq<BatchedGeometry>): (bs: seq<map<int, Span>>)
    requires forall p | 0 <= p < |geometries| :: WellIndexed(geometries[p])
    ensures |bs| == |geometries|
    ensures forall p | 0 <= p < |bs| :: RunsOf(IndexBatchIds(geometries[p]), |geometries[p].indices|, bs[p])
  {
    seq(|geometries|, p requires 0 <= p < |geometries| && WellIndexed(geometries[p]) =>
      Batches(IndexBatchIds(geometries[p]), |geometries[p].indices|))
  }

  /** The range of a layer in every pass; the batch bounds do not change
      while the passes run. */
  function PassRanges(l: RenderLayer, bs: seq<map<int, Span>>): (ranges: seq<Option<DrawRange>>)
    ensures |ranges| == |bs| && forall p | 0 <= p < |bs| :: ranges[p] == LayerRange(bs[p], l.firstBatchId, l.lastBatchId)
  {
    seq(|bs|, p requires 0 <= p < |bs| => LayerRange(bs[p], l.firstBatchId, l.lastBatchId))
  }

  /** One layer after passes `0..n-1` of `onGeometriesLoaded`. The method loops
      over passes and, inside, over layers; a layer's update reads only its own
      batch bounds and writes only its own maps, so each layer can be followed
      on its own. */
  function LayerAfterPasses(l: RenderLayer, ranges: seq<Option<DrawRange>>, n: nat): (r: RenderLayer)
    requires n <= |ranges| && HasRanges(l)
    ensures HasRanges(r) && r == l.(offsets := r.offsets, counts := r.counts)
    decreases n
  {
    if n == 0 then l else AssignRange(LayerAfterPasses(l, ranges, n - 1), n - 1, ranges[n - 1])
  }

  /** After the passes, a layer holds the range of every pass that has one,
      and its old entry for every other pass. */
  lemma {:induction false} LayerAfterPassesRanges(l: RenderLayer, ranges: seq<Option<DrawRange>>, n: nat, p: nat)
    requires n <= |ranges| && HasRanges(l)
    ensures var r := LayerAfterPasses(l, ranges, n);
            (p < n && ranges[p].Some? ==>
               p in r.offsets.value && r.offsets.value[p] == ranges[p].value.offset &&
               p in r.counts.value && r.counts.value[p] == ranges[p].value.count) &&
            (p >= n || ranges[p].None? ==>
               SameAt(r.offsets.value, l.offsets.value, p) && SameAt(r.counts.value, l.counts.value, p))
    decreases n
  {
    if n > 0 {
      LayerAfterPassesRanges(l, ranges, n - 1, p);
    }
  }

  /** `onGeometriesLoaded(geometries)`. */
  function OnGeometriesLoaded(layers: seq<RenderLayer>, geometries: seq<BatchedGeometry>): (r: seq<RenderLayer>)
    requires forall p | 0 <= p < |geometries| :: WellIndexed(geometries[p])
    requires forall i | 0 <= i < |layers| :: HasRanges(layers[i])
    ensures |r| == |layers|
    ensures forall i | 0 <= i < |r| ::
              r[i] == LayerAfterPasses(layers[i], PassRanges(layers[i], PassBatches(geometries)), |geometries|)
  {
    var bs := PassBatches(geometries);
    seq(|layers|, i requires 0 <= i < |layers| && HasRanges(layers[i]) =>
      LayerAfterPasses(layers[i], PassRanges(layers[i], bs), |geometries|))
  }

  // ---------------------------------------------------------------------
  // createLayerCommands and update.

  /** The commands of one layer for passes `from..n-1`: one per pass whose
      offset and count are both numbers. */
  function PassCommands(offsets: map<nat, int>, counts: map<nat, int>, from: nat, n: nat): (r: seq<DrawCommand>)
    ensures forall c | c in r :: from <= c.pass < n && c.pass in offsets && c.pass in counts &&
                                 c.offset == offsets[c.pass] && c.count == counts[c.pass]
    ensures forall p | from <= p < n && p in offsets && p in counts :: DrawCommand(p, offsets[p], counts[p]) in r
    ensures forall i, j | 0 <= i < j < |r| :: r[i].pass < r[j].pass
    decreases n - from
  {
    if from >= n then []
    else if from in offsets && from in counts then [DrawCommand(from, offsets[from], counts[from])] + PassCommands(offsets, counts, from + 1, n)
    else PassCommands(offsets, counts, from + 1, n)
  }

  /** `createLayerCommands(batchedCommandList)` for `n` batched commands:
      every layer's command list is replaced by its pass commands. */
  function CreateLayerCommands(layers: seq<RenderLayer>, n: nat): (r: seq<RenderLayer>)
    requires forall i | 0 <= i < |layers| :: HasRanges(layers[i])
    ensures |r| == |layers|
    ensures forall i | 0 <= i < |r| ::
              r[i] == layers[i].(commandList := r[i].commandList) && HasRanges(r[i]) &&
              r[i].commandList == PassCommands(layers[i].offsets.value, layers[i].counts.value, 0, n)
  {
    seq(|layers|, i requires 0 <= i < |layers| && HasRanges(layers[i]) =>
      layers[i].(commandList := PassCommands(layers[i].offsets.value, layers[i].counts.value, 0, n)))
  }

  /** What the primitive's `update` did this frame: it threw, having pushed
      `partial` to the temporary command list; or it returned, possibly having
      delivered its merged geometries, with `commandCount` batched commands. */
  datatype PrimitiveStep =
    | PrimitiveThrew(partial: seq<DrawCommand>)
    | PrimitiveUpdated(geometries: Option<seq<BatchedGeometry>>, commandCount: nat)

  /** The inputs `update` relies on: merged geometries index their own vertices,
      and every layer still has its offsets and counts. */
  predicate StepOk(v: Fill, step: PrimitiveStep) {
    (forall i | 0 <= i < |v.base.layers| :: HasRanges(v.base.layers[i])) &&
    (step.PrimitiveUpdated? && step.geometries.Some? ==>
       forall p | 0 <= p < |step.geometries.value| :: WellIndexed(step.geometries.value[p]))
  }

  /** The visualizer and the frame's command list after `update`. */
  datatype FillUpdate = FillUpdate(vis: Fill, frame: seq<DrawCommand>)

  /** The primitive update runs this frame. */
  predicate Runs(v: Fill) {
    v.instances.Some? && (v.primitive || |v.instances.value| > 0) && v.base.state != VisDone && v.base.state != VisError
  }

  /** `update(frameState)` with the frame's command list restored on every path. */
  function Update(v: Fill, frame: seq<DrawCommand>, step: PrimitiveStep): (r: FillUpdate)
    requires StepOk(v, step)
    ensures r.frame == frame
    ensures v.instances.None? ==> r.vis == v
    ensures v.instances.Some? && !Runs(v) ==> r.vis == v.(primitive := v.primitive || |v.instances.value| > 0)
    ensures Runs(v) ==> r.vis.instances == Some([]) && r.vis.primitive
    ensures Runs(v) && step.PrimitiveThrew? ==> r.vis.base.state == VisError && r.vis.base.layers == v.base.layers
    ensures Runs(v) && step.PrimitiveUpdated? ==>
              (step.commandCount > 0 <==> r.vis.base.state == VisDone) &&
              (step.commandCount == 0 ==> r.vis.base.state == v.base.state)
    // Delivered geometries give every layer its per-pass ranges; batched
    // commands then give every layer one command per pass with a range.
    ensures Runs(v) && step.PrimitiveUpdated? ==>
              |r.vis.base.layers| == |v.base.layers| &&
              forall i | 0 <= i < |v.base.layers| ::
                var l := v.base.layers[i];
                var loaded := if step.geometries.Some? then
                                LayerAfterPasses(l, PassRanges(l, PassBatches(step.geometries.value)), |step.geometries.value|)
                              else l;
                r.vis.base.layers[i] ==
                  if step.commandCount > 0 then
                    loaded.(commandList := PassCommands(loaded.offsets.value, loaded.counts.value, 0, step.commandCount))
                  else loaded
  {
    if v.instances.None? then FillUpdate(v, frame)
    else
      var created := v.primitive || |v.instances.value| > 0;
      if created && v.base.state != VisDone && v.base.state != VisError then
        match step
        case PrimitiveThrew(_) =>
          FillUpdate(Fill(v.base.(state := VisError), Some([]), true), frame)
        case PrimitiveUpdated(geometries, n) =>
          var loaded := if geometries.Some? then OnGeometriesLoaded(v.base.layers, geometries.value) else v.base.layers;
          var vis := if n > 0 then v.base.(layers := CreateLayerCommands(loaded, n), state := VisDone) else v.base.(layers := loaded);
          FillUpdate(Fill(vis, Some([]), true), frame)
      else FillUpdate(v.(primitive := created), frame)
  }

  /** From the merged geometries to the draw commands: a layer that
      `addLayer` left with empty offsets and counts ends with a command for
      pass `p` exactly when `p` is both a merged geometry and a batched
      command and the layer's batch ids have a range in that geometry; the
      command draws that range. */
  lemma UpdateDrawsLayerRanges(v: Fill, frame: seq<DrawCommand>, gs: seq<BatchedGeometry>, n: nat, i: nat,
                               p: nat, offset: int, count: int)
    requires StepOk(v, PrimitiveUpdated(Some(gs), n)) && Runs(v) && n > 0 && i < |v.base.layers|
    requires v.base.layers[i].offsets == Some(map[]) && v.base.layers[i].counts == Some(map[])
    ensures var l := v.base.layers[i];
            var l' := Update(v, frame, PrimitiveUpdated(Some(gs), n)).vis.base.layers[i];
            DrawCommand(p, offset, count) in l'.commandList <==>
              p < n && p < |gs| && LayerRange(PassBatches(gs)[p], l.firstBatchId, l.lastBatchId) == Some(DrawRange(offset, count))
  {
    var l := v.base.layers[i];
    var ranges := PassRanges(l, PassBatches(gs));
    CommandsOfRanges(l, ranges, n, p, offset, count);
  }

  /** The commands of a layer that started with no ranges and then ran all
      its passes: one per pass below `n` that has a range. */
  lemma CommandsOfRanges(l: RenderLayer, ranges: seq<Option<DrawRange>>, n: nat, p: nat, offset: int, count: int)
    requires l.offsets == Some(map[]) && l.counts == Some(map[])
    ensures var loaded := LayerAfterPasses(l, ranges, |ranges|);
            DrawCommand(p, offset, count) in PassCommands(loaded.offsets.value, loaded.counts.value, 0, n) <==>
              p < n && p < |ranges| && ranges[p] == Some(DrawRange(offset, count))
  {
    var loaded := LayerAfterPasses(l, ranges, |ranges|);
    LayerAfterPassesRanges(l, ranges, |ranges|, p);
    if DrawCommand(p, offset, count) in PassCommands(loaded.offsets.value, loaded.counts.value, 0, n) {
      assert p in loaded.offsets.value;
    }
  }

  /** `update` as written: when the primitive update throws, the method returns
      before putting the frame's command list back, so the frame continues
      with the temporary list. */
  function UpdateAsWritten(v: Fill, frame: seq<DrawCommand>, step: PrimitiveStep): (r: FillUpdate)
    requires StepOk(v, step)
    ensures r.vis == Update(v, frame, step).vis
    ensures Runs(v) && step.PrimitiveThrew? ==> r.frame == step.partial
    ensures !(Runs(v) && step.PrimitiveThrew?) ==> r.frame == frame
  {
    if Runs(v) && step.PrimitiveThrew? then FillUpdate(Update(v, frame, step).vis, step.partial)
    else Update(v, frame, step)
  }

  /** The discrepancy: a throwing primitive drops every command already queued
      for the frame. */
  lemma AsWrittenDropsFrameCommands(v: Fill, frame: seq<DrawCommand>)
    requires Runs(v) && StepOk(v, PrimitiveThrew([])) && |frame| > 0
    ensures UpdateAsWritten(v, frame, PrimitiveThrew([])).frame == []
    ensures Update(v, frame, PrimitiveThrew([])).frame == frame
  {
  }

  /** Once `done` or `error` with a primitive, `update` changes nothing. */
  lemma SettledVisualizerIsInert(v: Fill, frame: seq<DrawCommand>, step: PrimitiveStep)
    requires StepOk(v, step) && v.primitive && (v.base.state == VisDone || v.base.state == VisError)
    ensures Update(v, frame, step) == FillUpdate(v, frame)
  {
  }

  /** A visualizer that kept no polygon never creates a primitive, so it stays
      in `none` whatever frames pass. */
  lemma EmptyVisualizerStaysNone(v: Fill, frame: seq<DrawCommand>, step: PrimitiveStep)
    requires StepOk(v, step) && v.instances == Some([]) && !v.primitive && v.base.state == VisNone
    ensures Update(v, frame, step).vis == v
  {
  }
}
