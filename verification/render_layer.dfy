/** The renderable-layer base class (Source/layers/IRenderLayer.js): one style
    layer's slice of one tile, holding the filtered source features, the batch
    range and per-pass draw ranges a visualizer assigns, and the draw commands
    it forwards to the frame. */
module RenderLayers {
  import opened Wrappers
  import opened Features
  import opened Style

  /** The tile a layer belongs to, as far as a layer looks at it. */
  datatype TileRef = TileRef(key: nat, x: nat, y: nat, z: nat)

  /** A shallow clone of the batched draw command of one pass, restricted to
      the index range `[offset, offset + count)`. */
  datatype DrawCommand = DrawCommand(pass: nat, offset: int, count: int)

  /** An `IRenderLayer`. `None` stands for a field that `destroy` set to null;
      `state` and `visibility` are never assigned by this class and read as
      `undefined` (`None`) unless a subclass sets them. */
  datatype RenderLayer = RenderLayer(
    sourceFeatures: seq<Feature>,
    style: Option<StyleLayer>,
    tile: Option<TileRef>,
    features: seq<Feature>,
    firstBatchId: int,
    lastBatchId: int,
    offsets: Option<map<nat, int>>,
    counts: Option<map<nat, int>>,
    commandList: seq<DrawCommand>,
    state: Option<string>,
    visibility: Option<string>,
    destroyed: bool)

  /** `new IRenderLayer(sourceFeatures, styleLayer, tile)`. */
  function NewRenderLayer(sourceFeatures: seq<Feature>, style: StyleLayer, tile: TileRef): (l: RenderLayer)
    ensures l.sourceFeatures == sourceFeatures && l.style == Some(style) && l.tile == Some(tile)
    ensures l.firstBatchId == -1 && l.lastBatchId == -1
    ensures l.features == [] && l.commandList == []
    ensures l.offsets == Some(map[]) && l.counts == Some(map[])
    ensures l.state.None? && l.visibility.None?
    ensures !IsDestroyed(l)
  {
    RenderLayer(sourceFeatures, Some(style), Some(tile), [], -1, -1, Some(map[]), Some(map[]), [], None, None, false)
  }

  /** The `id` getter: the style layer's id; reading it after `destroy` throws (`None`). */
  function Id(l: RenderLayer): (r: Option<string>)
    ensures r.Some? <==> l.style.Some?
    ensures l.style.Some? ==> r.value == l.style.value.id
  {
    if l.style.Some? then Some(l.style.value.id) else None
  }

  /** The `type` getter. */
  function Type(l: RenderLayer): (r: Option<string>)
    ensures r.Some? <==> l.style.Some?
    ensures l.style.Some? ==> r.value == l.style.value.layerType
  {
    if l.style.Some? then Some(l.style.value.layerType) else None
  }

  predicate IsDestroyed(l: RenderLayer) {
    l.destroyed
  }

  /** The layout `visibility` value at the tile's level is the string `none`. */
  predicate Hidden(style: StyleLayer, z: nat, eval: (Expr, real, Option<Feature>) -> Value) {
    GetDataConstValue(style.layout, "visibility", z as real, eval) == Some(Str("none"))
  }

  /** `update(frameState)`: the frame's command list after the call, or `None`
      when the call throws because the style or tile was nulled by `destroy`. */
  function Update(l: RenderLayer, frame: seq<DrawCommand>, eval: (Expr, real, Option<Feature>) -> Value): (r: Option<seq<DrawCommand>>)
    ensures r.None? <==> l.style.None? || l.tile.None?
    ensures r.Some? ==> |r.value| >= |frame| && r.value[..|frame|] == frame
    ensures r.Some? && Hidden(l.style.value, l.tile.value.z, eval) ==> r.value == frame
    ensures r.Some? && !Hidden(l.style.value, l.tile.value.z, eval) ==> r.value[|frame|..] == l.commandList
  {
    if l.style.None? || l.tile.None? then None
    else if Hidden(l.style.value, l.tile.value.z, eval) then Some(frame)
    else Some(frame + l.commandList)
  }

  /** `destroy()`. */
  function Destroy(l: RenderLayer): (r: RenderLayer)
    ensures IsDestroyed(r)
    ensures r.commandList == [] && r.sourceFeatures == []
    ensures r.style.None? && r.tile.None? && r.offsets.None? && r.counts.None?
    ensures r.firstBatchId == l.firstBatchId && r.lastBatchId == l.lastBatchId && r.features == l.features
  {
    l.(commandList := [], sourceFeatures := [], style := None, offsets := None, counts := None,
       tile := None, destroyed := true)
  }

  /** Once destroyed, a layer can no longer be updated and has no id or type:
      each of those reads dereferences the nulled style or tile. */
  lemma DestroyedLayerCannotUpdate(l: RenderLayer, frame: seq<DrawCommand>, eval: (Expr, real, Option<Feature>) -> Value)
    ensures Update(Destroy(l), frame, eval).None?
    ensures Id(Destroy(l)).None? && Type(Destroy(l)).None?
  {
  }

  /** Updating a layer twice forwards its commands twice: the base class keeps
      no record of what it already forwarded. */
  lemma UpdateForwardsEveryTime(l: RenderLayer, frame: seq<DrawCommand>, eval: (Expr, real, Option<Feature>) -> Value)
    requires l.style.Some? && l.tile.Some? && !Hidden(l.style.value, l.tile.value.z, eval)
    ensures Update(l, frame, eval).Some?
    ensures Update(l, Update(l, frame, eval).value, eval) == Some(frame + l.commandList + l.commandList)
  {
  }
}
