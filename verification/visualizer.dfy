/** The layer-visualizer base class (Source/layers/visualizers/ILayerVisualizer.js):
    the per-tile, per-layer-type object that batches the geometry of all layers
    of one type. Subclasses keep their own extra state beside this record. */
module Visualizers {
  import opened Wrappers
  import opened RenderLayers

  /** `'none' | 'done' | 'error'`. */
  datatype VisState = VisNone | VisDone | VisError

  /** The base fields; `L` is the layer record the subclass keeps. */
  datatype Visualizer<L> = Visualizer(tile: Option<TileRef>, layers: seq<L>, state: VisState, destroyed: bool)

  /** `new ILayerVisualizer(tile, layers)`; an omitted `layers` (`None`) is a
      fresh empty list. */
  function NewVisualizer<L>(tile: TileRef, layers: Option<seq<L>>): (v: Visualizer<L>)
    ensures v.tile == Some(tile) && v.state == VisNone && !IsDestroyed(v)
    ensures layers.None? ==> v.layers == []
    ensures layers.Some? ==> v.layers == layers.value
  {
    Visualizer(Some(tile), layers.GetOr([]), VisNone, false)
  }

  predicate IsDestroyed<L>(v: Visualizer<L>) {
    v.destroyed
  }

  /** `destroy()`: the tile reference is cleared and the layer list emptied. */
  function DestroyVisualizer<L>(v: Visualizer<L>): (r: Visualizer<L>)
    ensures IsDestroyed(r) && r.tile.None? && r.layers == []
    ensures r.state == v.state
  {
    v.(tile := None, layers := [], destroyed := true)
  }
}
