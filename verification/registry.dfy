/** The two type-keyed registries: layer type -> renderable-layer class and
    optional shared visualizer class (Source/layers/registerRenderLayer.js), and
    source type -> source class (Source/sources/registerSource.js). Classes are
    represented by tags; a JavaScript object whose key was assigned `undefined`
    is a map entry holding `None`. */
module Registry {
  import opened Wrappers

  /** The renderable-layer classes the repository registers. */
  datatype LayerClass = BackgroundLayerClass | FillLayerClass | LineLayerClass | SymbolLayerClass

  /** The shared visualizer classes the repository registers. */
  datatype VisualizerClass = FillVisualizerClass | LineVisualizerClass | SymbolVisualizerClass

  /** The data-source classes the repository registers. */
  datatype SourceClass = VectorSourceClass | GeoJsonSourceClass

  /** `RenderLayers` and `LayerVisualizers`, the two module-level tables. */
  datatype LayerTables = LayerTables(
    renderLayers: map<string, LayerClass>,
    visualizers: map<string, Option<VisualizerClass>>)

  /** `RenderLayers[type]`: the layer class, `None` when unregistered. */
  function LookupRenderLayer(t: LayerTables, layerType: string): Option<LayerClass> {
    if layerType in t.renderLayers then Some(t.renderLayers[layerType]) else None
  }

  /** `LayerVisualizers[type]`: `None` when unregistered or registered without a visualizer. */
  function LookupVisualizer(t: LayerTables, layerType: string): Option<VisualizerClass> {
    if layerType in t.visualizers then t.visualizers[layerType] else None
  }

  /** Both tables as the module creates them. */
  function EmptyLayerTables(): (t: LayerTables)
    ensures forall ty :: LookupRenderLayer(t, ty) == None && LookupVisualizer(t, ty) == None
  {
    LayerTables(map[], map[])
  }

  /** `registerRenderLayer(type, R, V)`: both entries for `type` are overwritten,
      so omitting `V` erases an earlier visualizer; other types keep theirs. */
  function RegisterRenderLayer(t: LayerTables, layerType: string, r: LayerClass, v: Option<VisualizerClass>): (t': LayerTables)
    ensures LookupRenderLayer(t', layerType) == Some(r)
    ensures LookupVisualizer(t', layerType) == v
    ensures forall other :: other != layerType ==>
              LookupRenderLayer(t', other) == LookupRenderLayer(t, other) &&
              LookupVisualizer(t', other) == LookupVisualizer(t, other)
  {
    LayerTables(t.renderLayers[layerType := r], t.visualizers[layerType := v])
  }

  /** Registering a type twice leaves only the second registration's effect. */
  lemma RegisterRenderLayerOverwrites(t: LayerTables, layerType: string, r1: LayerClass, v1: Option<VisualizerClass>,
                                      r2: LayerClass, v2: Option<VisualizerClass>)
    ensures RegisterRenderLayer(RegisterRenderLayer(t, layerType, r1, v1), layerType, r2, v2)
            == RegisterRenderLayer(t, layerType, r2, v2)
  {
  }

  /** The tables after the layer modules have loaded: each module file registers
      its own type (background without a visualizer, then fill, line, symbol). */
  function DefaultLayerTables(): (t: LayerTables)
    ensures t.renderLayers.Keys == {"background", "fill", "line", "symbol"}
    ensures LookupRenderLayer(t, "background") == Some(BackgroundLayerClass)
    ensures LookupVisualizer(t, "background") == None
    ensures LookupRenderLayer(t, "fill") == Some(FillLayerClass)
    ensures LookupVisualizer(t, "fill") == Some(FillVisualizerClass)
    ensures LookupRenderLayer(t, "line") == Some(LineLayerClass)
    ensures LookupVisualizer(t, "line") == Some(LineVisualizerClass)
    ensures LookupRenderLayer(t, "symbol") == Some(SymbolLayerClass)
    ensures LookupVisualizer(t, "symbol") == Some(SymbolVisualizerClass)
  {
    var t0 := EmptyLayerTables();
    var t1 := RegisterRenderLayer(t0, "background", BackgroundLayerClass, None);
    var t2 := RegisterRenderLayer(t1, "fill", FillLayerClass, Some(FillVisualizerClass));
    var t3 := RegisterRenderLayer(t2, "line", LineLayerClass, Some(LineVisualizerClass));
    RegisterRenderLayer(t3, "symbol", SymbolLayerClass, Some(SymbolVisualizerClass))
  }

  /** `Sources[type]`. */
  function LookupSource(table: map<string, SourceClass>, sourceType: string): Option<SourceClass> {
    if sourceType in table then Some(table[sourceType]) else None
  }

  /** `registerSource(type, C)`: overwrites the entry for `type` only. */
  function RegisterSource(table: map<string, SourceClass>, sourceType: string, c: SourceClass): (t': map<string, SourceClass>)
    ensures LookupSource(t', sourceType) == Some(c)
    ensures forall other :: other != sourceType ==> LookupSource(t', other) == LookupSource(table, other)
  {
    table[sourceType := c]
  }

  /** The `Sources` table after the source modules have loaded. */
  function DefaultSources(): (t: map<string, SourceClass>)
    ensures t.Keys == {"vector", "geojson"}
    ensures LookupSource(t, "vector") == Some(VectorSourceClass)
    ensures LookupSource(t, "geojson") == Some(GeoJsonSourceClass)
  {
    RegisterSource(RegisterSource(map[], "vector", VectorSourceClass), "geojson", GeoJsonSourceClass)
  }
}
