/** The label bookkeeping of the symbol visualizer
    (Source/layers/visualizers/SymbolLayerVisualizer.js): point features of the
    symbol layers of a tile become labels numbered by their position in the
    visualizer's label list; each layer keeps the numbers of its own labels;
    the label collection is created on the first update; rendering decides
    which labels show. Fonts, colours, sizes and the Cesium label collection
    itself are not modelled: the collection's output is an input, and the
    horizon test and the tile rectangle test are predicates. */
module SymbolVisualizer {
  import opened Wrappers
  import opened Features
  import opened RenderLayers
  import opened Visualizers
  import opened Tokens

  /** A label: its batch id, text, anchor, whether it shows, and whether it
      has been added to the label collection. */
  datatype Label = Label(batchId: nat, text: string, position: Position, show: bool, added: bool)

  /** A `SymbolRenderLayer` with its `labels` list, kept as label batch ids. */
  datatype SymbolLayer = SymbolLayer(layer: RenderLayer, refs: seq<nat>)

  /** A `SymbolLayerVisualizer`: the base fields, every label of the tile,
      whether the label collection exists, and the visualizer's own command
      list. */
  datatype Symbol = Symbol(base: Visualizer<SymbolLayer>, labels: seq<Label>, primitive: bool, commandList: seq<DrawCommand>)

  /** `new SymbolLayerVisualizer(tile)`. The subclass passes its two arguments
      to the base constructor in swapped order, and the tile creates it with
      the tile as the only argument, so the two swaps cancel: the base gets
      the tile and an empty layer list. */
  function NewSymbol(tile: TileRef): (v: Symbol)
    ensures v.base.tile == Some(tile) && v.base.layers == [] && v.base.state == VisNone
    ensures v.labels == [] && !v.primitive
  {
    Symbol(NewVisualizer(tile, None), [], false, [])
  }

  // ---------------------------------------------------------------------
  // addLayer.

  /** Every label's batch id is its index. */
  predicate ConsecutiveIds(labels: seq<Label>) {
    forall k | 0 <= k < |labels| :: labels[k].batchId == k
  }

  /** The anchors of a feature: a point gives one, a multipoint one per point,
      any other geometry none. */
  function LabelPoints(g: Option<Geometry>): seq<Position> {
    match g
    case Some(Point(p)) => [p]
    case Some(MultiPoint(points)) => points
    case _ => []
  }

  /** The text of a feature's labels, or `None` when the feature gets none:
      no geometry, a truthy `icon-image` (`iconImage`), or an empty text. The
      text is `text-field` (`textField`, `""` when falsy) with its tokens
      resolved against the feature's properties. */
  function LabelText(f: Feature, iconImage: Feature -> bool, textField: Feature -> string): (r: Option<string>)
    ensures r.Some? ==> f.geometry.Some? && !iconImage(f) && r.value != "" && textField(f) != ""
    ensures r.Some? ==> r.value == ResolveTokens(Some(f.properties), textField(f))
    ensures (f.geometry.Some? && !iconImage(f) && textField(f) != "" &&
             ResolveTokens(Some(f.properties), textField(f)) != "") ==> r.Some?
  {
    if f.geometry.None? || iconImage(f) then None
    else
      var field := textField(f);
      var text := if field == "" then "" else ResolveTokens(Some(f.properties), field);
      if text == "" then None else Some(text)
  }

  /** `addText` for each anchor in turn: an anchor inside the tile rectangle
      (`inside`) gets a new label numbered by the label count. */
  function AddTexts(labels: seq<Label>, text: string, points: seq<Position>, inside: Position -> bool): (r: seq<Label>)
    ensures |r| >= |labels| && r[..|labels|] == labels
    ensures ConsecutiveIds(labels) ==> ConsecutiveIds(r)
    ensures forall k | |labels| <= k < |r| ::
              r[k].text == text && r[k].position in points && inside(r[k].position) && r[k].show && !r[k].added
    ensures forall p | p in points && inside(p) :: exists k | |labels| <= k < |r| :: r[k].position == p
    decreases |points|
  {
    if |points| == 0 then labels
    else
      var next := if inside(points[0]) then labels + [Label(|labels|, text, points[0], true, false)] else labels;
      var r := AddTexts(next, text, points[1..], inside);
      assert forall p | p in points[1..] :: p in points;
      assert next[..|labels|] == labels;
      assert inside(points[0]) ==> r[|labels|].position == points[0] by {
        if inside(points[0]) { assert r[|labels|] == next[|labels|]; }
      }
      r
  }

  /** The labels of the features, in order. */
  function AddFeatures(labels: seq<Label>, features: seq<Feature>, iconImage: Feature -> bool,
                       textField: Feature -> string, inside: Position -> bool): (r: seq<Label>)
    ensures |r| >= |labels| && r[..|labels|] == labels
    ensures ConsecutiveIds(labels) ==> ConsecutiveIds(r)
    ensures forall k | |labels| <= k < |r| :: r[k].show && !r[k].added && inside(r[k].position)
    decreases |features|
  {
    if |features| == 0 then labels
    else
      var f := features[0];
      var next := match LabelText(f, iconImage, textField)
                  case None => labels
                  case Some(text) => AddTexts(labels, text, LabelPoints(f.geometry), inside);
      var r := AddFeatures(next, features[1..], iconImage, textField, inside);
      assert r[..|next|] == next;
      assert forall k | |labels| <= k < |next| :: r[k] == next[k];
      r
  }

  /** Every new label comes from a feature that gets labels, at one of its anchors. */
  lemma {:induction false} AddFeaturesSound(labels: seq<Label>, features: seq<Feature>, iconImage: Feature -> bool,
                                            textField: Feature -> string, inside: Position -> bool, k: nat)
    requires |labels| <= k < |AddFeatures(labels, features, iconImage, textField, inside)|
    ensures var r := AddFeatures(labels, features, iconImage, textField, inside);
            exists f | f in features :: LabelText(f, iconImage, textField) == Some(r[k].text) &&
                                        r[k].position in LabelPoints(f.geometry)
    decreases |features|
  {
    var r := AddFeatures(labels, features, iconImage, textField, inside);
    var f := features[0];
    var next := match LabelText(f, iconImage, textField)
                case None => labels
                case Some(text) => AddTexts(labels, text, LabelPoints(f.geometry), inside);
    assert r == AddFeatures(next, features[1..], iconImage, textField, inside);
    if k < |next| {
      assert r[k] == next[k];
    } else {
      AddFeaturesSound(next, features[1..], iconImage, textField, inside, k);
      var g :| g in features[1..] && LabelText(g, iconImage, textField) == Some(r[k].text) &&
               r[k].position in LabelPoints(g.geometry);
      assert g in features;
    }
  }

  /** Some label from index `from` on has `text` at `p`. */
  predicate HasLabel(labels: seq<Label>, from: nat, text: string, p: Position) {
    exists k | from <= k < |labels| :: labels[k].text == text && labels[k].position == p
  }

  /** Every anchor inside the tile of every feature that gets labels has a
      new label with that feature's text. */
  lemma {:induction false} AddFeaturesComplete(labels: seq<Label>, features: seq<Feature>, iconImage: Feature -> bool,
                                               textField: Feature -> string, inside: Position -> bool, f: Feature, p: Position)
    requires f in features && LabelText(f, iconImage, textField).Some? && p in LabelPoints(f.geometry) && inside(p)
    ensures HasLabel(AddFeatures(labels, features, iconImage, textField, inside), |labels|,
                     LabelText(f, iconImage, textField).value, p)
    decreases |features|
  {
    var r := AddFeatures(labels, features, iconImage, textField, inside);
    var text := LabelText(f, iconImage, textField).value;
    var g := features[0];
    var next := match LabelText(g, iconImage, textField)
                case None => labels
                case Some(t) => AddTexts(labels, t, LabelPoints(g.geometry), inside);
    assert r == AddFeatures(next, features[1..], iconImage, textField, inside);
    if g == f {
      assert next == AddTexts(labels, text, LabelPoints(f.geometry), inside);
      var k :| |labels| <= k < |next| && next[k].position == p;
      assert r[k] == next[k];
      assert r[k].text == text && r[k].position == p;
      assert HasLabel(r, |labels|, text, p);
    } else {
      assert f in features[1..];
      AddFeaturesComplete(next, features[1..], iconImage, textField, inside, f, p);
      var k :| |next| <= k < |r| && r[k].text == text && r[k].position == p;
      assert |labels| <= k;
      assert HasLabel(r, |labels|, text, p);
    }
  }

  /** `addLayer(features, layer)`: the new labels are appended, the layer
      records their numbers after its own, and the layer joins the list. */
  function AddLayer(v: Symbol, features: seq<Feature>, layer: SymbolLayer, iconImage: Feature -> bool,
                    textField: Feature -> string, inside: Position -> bool): (r: Symbol)
    ensures r.base == v.base.(layers := r.base.layers) && r.primitive == v.primitive && r.commandList == v.commandList
    ensures r.labels == AddFeatures(v.labels, features, iconImage, textField, inside)
    ensures |r.base.layers| == |v.base.layers| + 1 && r.base.layers[..|v.base.layers|] == v.base.layers
    ensures var l := r.base.layers[|v.base.layers|];
            l.layer == layer.layer && |l.refs| == |layer.refs| + |r.labels| - |v.labels| &&
            l.refs[..|layer.refs|] == layer.refs &&
            forall j | |layer.refs| <= j < |l.refs| :: l.refs[j] == |v.labels| + j - |layer.refs|
  {
    var labels := AddFeatures(v.labels, features, iconImage, textField, inside);
    var n := |v.labels|;
    var added := seq(|labels| - n, j requires 0 <= j < |labels| - n => n + j);
    var l := layer.(refs := layer.refs + added);
    assert l.refs[..|layer.refs|] == layer.refs;
    assert (v.base.layers + [l])[..|v.base.layers|] == v.base.layers;
    Symbol(v.base.(layers := v.base.layers + [l]), labels, v.primitive, v.commandList)
  }

  /** The bookkeeping invariant: label numbers are indices, every layer's
      references are label numbers, and no label belongs to two layers. */
  predicate WellFormed(v: Symbol) {
    ConsecutiveIds(v.labels) &&
    (forall i, j | 0 <= i < |v.base.layers| && 0 <= j < |v.base.layers[i].refs| :: v.base.layers[i].refs[j] < |v.labels|) &&
    (forall i1, j1, i2, j2 | 0 <= i1 < i2 < |v.base.layers| && 0 <= j1 < |v.base.layers[i1].refs| && 0 <= j2 < |v.base.layers[i2].refs| ::
       v.base.layers[i1].refs[j1] != v.base.layers[i2].refs[j2])
  }

  /** `addLayer` with a fresh layer keeps the invariant. */
  lemma AddLayerKeepsWellFormed(v: Symbol, features: seq<Feature>, layer: SymbolLayer, iconImage: Feature -> bool,
                                textField: Feature -> string, inside: Position -> bool)
    requires WellFormed(v) && layer.refs == []
    ensures WellFormed(AddLayer(v, features, layer, iconImage, textField, inside))
  {
    var r := AddLayer(v, features, layer, iconImage, textField, inside);
    var n := |v.base.layers|;
    forall i, j | 0 <= i < |r.base.layers| && 0 <= j < |r.base.layers[i].refs|
      ensures r.base.layers[i].refs[j] < |r.labels|
      ensures i < n ==> r.base.layers[i].refs[j] < |v.labels|
      ensures i == n ==> r.base.layers[i].refs[j] >= |v.labels|
    {
      if i < n {
        assert r.base.layers[i] == v.base.layers[i];
      }
    }
  }

  // ---------------------------------------------------------------------
  // createPrimitive.

  /** `createPrimitive()`: every label is added to the collection, and each
      layer reference is replaced by the collection's label with the same
      batch id. */
  function CreatePrimitive(v: Symbol): (r: Symbol)
    ensures r.base == v.base && r.primitive && r.commandList == v.commandList
    ensures |r.labels| == |v.labels|
    ensures forall k | 0 <= k < |r.labels| :: r.labels[k] == v.labels[k].(added := true)
  {
    var labels := seq(|v.labels|, k requires 0 <= k < |v.labels| => v.labels[k].(added := true));
    Symbol(v.base, labels, true, v.commandList)
  }

  /** After `createPrimitive`, every layer reference leads to an added label
      that carries the referenced batch id. */
  lemma ReferencesResolveAfterCreate(v: Symbol)
    requires WellFormed(v)
    ensures WellFormed(CreatePrimitive(v))
    ensures var r := CreatePrimitive(v);
            forall i, j | 0 <= i < |r.base.layers| && 0 <= j < |r.base.layers[i].refs| ::
              r.labels[r.base.layers[i].refs[j]].batchId == r.base.layers[i].refs[j] &&
              r.labels[r.base.layers[i].refs[j]].added
  {
  }

  // ---------------------------------------------------------------------
  // update.

  /** What the label collection's `update` produced: its commands, and
      whether its `_state` reads as failed. */
  datatype LabelOutput = LabelOutput(commands: seq<DrawCommand>, failed: bool)

  /** The visualizer after `update`, and whether the call threw. */
  datatype SymbolStep = SymbolStep(vis: Symbol, threw: bool)

  /** `update` as written. The base class defines neither `commandList` nor
      `setState`: once the collection exists, emptying `this.commandList`
      throws, and without labels the call to `setState` throws. So an update
      in state `none` always throws; it still creates the collection first. */
  function UpdateAsWritten(v: Symbol): (r: SymbolStep)
    ensures v.base.state != VisNone ==> r == SymbolStep(v, false)
    ensures v.base.state == VisNone ==> r.threw && r.vis.base.state == VisNone
    ensures v.base.state == VisNone && !v.primitive && |v.labels| > 0 ==> r.vis == CreatePrimitive(v)
  {
    if v.base.state != VisNone then SymbolStep(v, false)
    else
      var v1 := if !v.primitive && |v.labels| > 0 then CreatePrimitive(v) else v;
      SymbolStep(v1, true)
  }

  /** `update` with the command list initialised and `setState` assigning the
      state. The collection's commands go to the visualizer's own list; the
      frame's list is put back. As written, the visualizer is marked done when
      the frame's list (`frameCount` commands) is non-empty, not its own. */
  function Update(v: Symbol, frameCount: nat, out: LabelOutput): (r: Symbol)
    ensures v.base.state != VisNone ==> r == v
    ensures v.base.state == VisNone && !v.primitive && |v.labels| == 0 ==>
              r == v.(base := v.base.(state := VisDone))
    ensures v.base.state == VisNone && (v.primitive || |v.labels| > 0) ==>
              r.primitive && r.commandList == out.commands && r.base.layers == v.base.layers &&
              (out.failed ==> r.base.state == VisError) &&
              (!out.failed ==> (r.base.state == VisDone <==> frameCount > 0)) &&
              (!out.failed && frameCount == 0 ==> r.base.state == VisNone)
    ensures v.base.state == VisNone && !v.primitive && |v.labels| > 0 ==> r.labels == CreatePrimitive(v).labels
  {
    if v.base.state != VisNone then v
    else
      var v1 := if !v.primitive && |v.labels| > 0 then CreatePrimitive(v) else v;
      if v1.primitive then
        var state := if out.failed then VisError else if frameCount > 0 then VisDone else VisNone;
        v1.(commandList := out.commands, base := v1.base.(state := state))
      else v1.(base := v1.base.(state := VisDone))
  }

  /** As written, a symbol visualizer never leaves `none`: every update throws. */
  lemma AsWrittenNeverLeavesNone(v: Symbol)
    requires v.base.state == VisNone
    ensures UpdateAsWritten(v).threw && UpdateAsWritten(v).vis.base.state == VisNone
    ensures UpdateAsWritten(UpdateAsWritten(v).vis).threw
  {
  }

  /** With the fields in place, an update that is the first of its frame to
      add commands leaves the visualizer in `none` even when the collection
      produced commands, because the test reads the frame's list. */
  lemma FirstInFrameStaysNone(v: Symbol, out: LabelOutput)
    requires v.base.state == VisNone && |v.labels| > 0 && !out.failed && |out.commands| > 0
    ensures Update(v, 0, out).base.state == VisNone
    ensures Update(v, 0, out).commandList == out.commands
  {
  }

  // ---------------------------------------------------------------------
  // render.

  /** A layer's labels show when the layer is not hidden and the tileset's
      zoom (`undefined` as `None`, for which both comparisons are false) lies
      in `[minzoom, maxzoom)`. */
  predicate LayerShows(l: RenderLayer, zoom: Option<real>)
    requires l.style.Some?
  {
    l.visibility != Some("none") &&
    !(zoom.Some? && zoom.value < l.style.value.minzoom) &&
    !(zoom.Some? && zoom.value >= l.style.value.maxzoom)
  }

  /** The labels referenced by `refs` get `show`. */
  function SetShow(labels: seq<Label>, refs: seq<nat>, show: bool): (r: seq<Label>)
    requires forall j | 0 <= j < |refs| :: refs[j] < |labels|
    ensures |r| == |labels|
    ensures forall k | 0 <= k < |labels| :: r[k] == labels[k].(show := if k in refs then show else labels[k].show)
    decreases |refs|
  {
    if |refs| == 0 then labels
    else
      var r := SetShow(labels, refs[..|refs| - 1], show);
      assert forall k :: k in refs <==> k in refs[..|refs| - 1] || k == refs[|refs| - 1];
      r[refs[|refs| - 1] := r[refs[|refs| - 1]].(show := show)]
  }

  /** Every layer with labels still has its style. */
  predicate LayersStyled(layers: seq<SymbolLayer>) {
    forall i | 0 <= i < |layers| :: layers[i].refs != [] ==> layers[i].layer.style.Some?
  }

  /** The first render loop, layer by layer. */
  function ApplyLayers(labels: seq<Label>, layers: seq<SymbolLayer>, zoom: Option<real>): (r: seq<Label>)
    requires LayersStyled(layers)
    requires forall i, j | 0 <= i < |layers| && 0 <= j < |layers[i].refs| :: layers[i].refs[j] < |labels|
    ensures |r| == |labels| && forall k | 0 <= k < |labels| :: r[k] == labels[k].(show := r[k].show)
    decreases |layers|
  {
    if |layers| == 0 then labels
    else
      var last := layers[|layers| - 1];
      var prev := ApplyLayers(labels, layers[..|layers| - 1], zoom);
      if last.refs == [] then prev else SetShow(prev, last.refs, LayerShows(last.layer, zoom))
  }

  /** With no label in two layers, each referenced label takes its own
      layer's decision, and an unreferenced label keeps its flag. */
  lemma {:induction false} ApplyLayersDecides(labels: seq<Label>, layers: seq<SymbolLayer>, zoom: Option<real>, k: nat)
    requires LayersStyled(layers)
    requires forall i, j | 0 <= i < |layers| && 0 <= j < |layers[i].refs| :: layers[i].refs[j] < |labels|
    requires forall i1, j1, i2, j2 | 0 <= i1 < i2 < |layers| && 0 <= j1 < |layers[i1].refs| && 0 <= j2 < |layers[i2].refs| ::
               layers[i1].refs[j1] != layers[i2].refs[j2]
    requires k < |labels|
    ensures forall i | 0 <= i < |layers| && k in layers[i].refs ::
              ApplyLayers(labels, layers, zoom)[k].show == LayerShows(layers[i].layer, zoom)
    ensures (forall i | 0 <= i < |layers| :: k !in layers[i].refs) ==> ApplyLayers(labels, layers, zoom)[k].show == labels[k].show
    decreases |layers|
  {
    if |layers| > 0 {
      var front := layers[..|layers| - 1];
      var last := layers[|layers| - 1];
      assert forall i | 0 <= i < |front| :: front[i] == layers[i];
      ApplyLayersDecides(labels, front, zoom, k);
    }
  }

  /** `render` without the final call: when `done`, each layer's labels take
      its show decision, a shown label is hidden when `occluded` (the horizon
      test) holds at its anchor, and the collection's commands replace the
      visualizer's own list. */
  function Render(v: Symbol, zoom: Option<real>, occluded: Position -> bool, out: LabelOutput): (r: Symbol)
    requires LayersStyled(v.base.layers)
    requires forall i, j | 0 <= i < |v.base.layers| && 0 <= j < |v.base.layers[i].refs| :: v.base.layers[i].refs[j] < |v.labels|
    ensures v.base.state != VisDone ==> r == v
    ensures v.base.state == VisDone ==>
              r.base == v.base && r.primitive == v.primitive && |r.labels| == |v.labels| &&
              (r.commandList == if v.primitive then out.commands else v.commandList) &&
              forall k | 0 <= k < |r.labels| ::
                r.labels[k] == v.labels[k].(show := r.labels[k].show) &&
                (r.labels[k].show ==> !occluded(v.labels[k].position))
  {
    if v.base.state != VisDone then v
    else
      var shown := ApplyLayers(v.labels, v.base.layers, zoom);
      var labels := seq(|shown|, k requires 0 <= k < |shown| => shown[k].(show := shown[k].show && !occluded(shown[k].position)));
      Symbol(v.base, labels, v.primitive, if v.primitive then out.commands else v.commandList)
  }

  /** A label of a layer shows after rendering exactly when its layer shows
      and its anchor is not occluded. */
  lemma RenderShowsLayerLabels(v: Symbol, zoom: Option<real>, occluded: Position -> bool, out: LabelOutput, i: nat, j: nat)
    requires WellFormed(v) && LayersStyled(v.base.layers) && v.base.state == VisDone
    requires i < |v.base.layers| && j < |v.base.layers[i].refs|
    ensures var k := v.base.layers[i].refs[j];
            Render(v, zoom, occluded, out).labels[k].show
            <==> LayerShows(v.base.layers[i].layer, zoom) && !occluded(v.labels[k].position)
  {
    var k := v.base.layers[i].refs[j];
    ApplyLayersDecides(v.labels, v.base.layers, zoom, k);
    assert k in v.base.layers[i].refs;
  }

  /** `render` as written. Once `done`, the labels take their show
      decisions as in `Render`; then, with a collection, emptying
      `this.commandList` (which the base class does not define) throws before
      the collection draws, and without one the call to `super.render`, which
      the base class does not define either, throws. Either way the call
      throws and the command list is left as it was. */
  function RenderAsWritten(v: Symbol, zoom: Option<real>, occluded: Position -> bool, out: LabelOutput): (r: SymbolStep)
    requires LayersStyled(v.base.layers)
    requires forall i, j | 0 <= i < |v.base.layers| && 0 <= j < |v.base.layers[i].refs| :: v.base.layers[i].refs[j] < |v.labels|
    ensures r.vis.labels == Render(v, zoom, occluded, out).labels
    ensures r.vis.base == v.base && r.vis.primitive == v.primitive && r.vis.commandList == v.commandList
    ensures r.threw <==> v.base.state == VisDone
  {
    SymbolStep(Render(v, zoom, occluded, out).(commandList := v.commandList), v.base.state == VisDone)
  }

  /** `destroy()`. */
  function DestroySymbol(v: Symbol): (r: Symbol)
    ensures !r.primitive && r.labels == v.labels && Visualizers.IsDestroyed(r.base) && r.base.layers == []
  {
    v.(primitive := false, base := DestroyVisualizer(v.base))
  }
}
