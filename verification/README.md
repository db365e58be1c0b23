# cesium-vectortile-gl in Dafny

A model of the core of cesium-vectortile-gl, a renderer that draws
Mapbox/MapLibre-style vector tiles on a Cesium globe, and proofs about it.

The model follows the program's structure, one module per component.

- **Wrappers** (`wrappers.dfy`): `Option` for JavaScript's `undefined` and `null`.
- **Features** (`features.dfy`): vector-tile features, geometries and property values.
- **Style** (`style.dfy`): the style-layer property groups. `getDataValue`, `getDataConstValue` and `resolveTokens` are their lookups. `StyleLayer` fills in defaults from the style reference, and `convertColor` undoes premultiplied alpha.
- **Registry** (`registry.dfy`): the render-layer, visualizer and source registries. Each is a table that a later registration overwrites.
- **RenderLayers** (`render_layer.dfy`): `IRenderLayer`, covering construction, `update` forwarding and `destroy`.
- **Visualizers** (`visualizer.dfy`): the `ILayerVisualizer` base: its state machine and `destroy`.
- **RenderList** (`render_list.dfy`): `VectorTileRenderList`. It groups render layers by style-layer id and returns them in style order.
- **Strings** and **Tokens** (`strings.dfy`, `tokens.dfy`): JavaScript's first-occurrence `String.replace`, and the `{key}` token substitution of `resolveTokens`.
- **VectorSource** (`vector_source.dfy`): URL resolution, tile-URL templating, the TileJSON metadata merge of `init`, and `requestTile`.
- **LineLayer** (`line_layer.dfy`): how `LineRenderLayer` flattens line and polygon features into polylines.
- **FillVisualizer** (`fill_visualizer.dfy`) and **SymbolVisualizer** (`symbol_visualizer.dfy`): the bookkeeping of the fill and label visualizers.
  - For fill: polygon selection, per-layer instance ranges, batch assignment of draw commands, and the update state machine.
  - For symbol: label collection, primitive creation, the update state machine, and show/hide at render.
- **Tiles** (`tile.dfy`): `VectorTileLOD`. This covers the quadtree node, the screen-space error and the visit decision. It also covers source loading, the build of render layers and visualizers, `update` under the two admission caps, `render` and `unload`.
- **Tileset**, **Traversal**, **Sorting** and **TilesetFrame** (`tileset.dfy`, `traversal.dfy`, `sort.dfy`, `tileset_frame.dfy`): `VectorTileset`. This covers source instantiation and root creation in `init`, and the breadth-first level-of-detail walk of `getTilesToRender`. It also covers the sort by distance, the per-frame update loop, the eviction sweep of the tile cache, and the end of a fetch pass.

## How the model is built

- Tiles live in an arena `map<nat, Tile>` keyed by the tile key that the module-level `nextTileKey` counter hands out. Parent and child links are keys.
- Everything that comes from the outside world is a parameter: the camera, the fetch results, the expression evaluator, the feature filter, and the Cesium primitives' outcomes.
  - The camera covers distance, visibility, fog, the drawing buffer and the frustum.
  - The fetch results cover both tile data and TileJSON.
- Fetches run concurrently with frames. A tile update that starts a fetch pass queues it, and `TilesetFrame.CompleteFetch` is the separate event that ends it.
- The admission caps `tileset.maxLoading` and `tileset.maxInitializing` are read but never assigned in the files modelled, so they are `Option<int>`. JavaScript's `n <= undefined` and `n < undefined` are false, so an undefined cap admits nothing.
- The tileset's invariant is `Tileset.Inv`, and `init`, every frame and every fetch completion keep it:
  - the quadtree is well formed;
  - roots are at level 0 with four children;
  - cached and rendered tiles are in the tree;
  - the loading counter equals the number of fetch passes in flight;
  - no root's child is ever cached, so the sweep never unloads one.
- A second invariant, `Tileset.Hierarchy`, holds from `NewTileset` on and is kept by the same three events. It says:
  - the tiles form a forest: no tile lists a child twice and no tile is the child of two tiles;
  - the roots are distinct;
  - the tiles to render hold no tile twice.

  On such a tree the walk renders each tile at most once (`Traversal.GetTilesToRenderDistinct`).

Two details of the code are easy to misread, and the model follows the code in both:

- The load admission tests `numLoading <= maxLoading` (Source/VectorTileLOD.js:409), not `<`, so one more load than the cap can be in flight (`TilesetFrame.UpdateLoading`).
- The sweep's early exit at 50 candidates never fires; see Findings.

Where the code is evidently wrong (see Findings), the model states the code as written in its own member and proves what goes wrong. Everything that builds on it uses the corrected member instead:

- The frame (`TilesetFrame.Update`, `TilesetFrame.Sweep`) uses the intended eviction sweep, not `TilesetFrame.SweepAsWritten`.
- A tile's `update` (`Tiles.TileUpdate`) and the frame take the corrected visualizer updates, which do not throw. As written, the symbol visualizer's `update` throws in state `none` and aborts the frame.

## Model

| member | source | states |
|---|---|---|
| Style.MakeProperties | Source/style/StyleLayerProperties.js:4-20 | a property group holds exactly the names the reference lists for it, each bound to the given value or, when none is given, to the reference default |
| Style.GetDataValue | Source/style/StyleLayerProperties.js:39-42 | undefined exactly when the group does not hold the name; otherwise the expression evaluated at the zoom with the feature |
| Style.GetDataConstValue | Source/style/StyleLayerProperties.js:34-37 | undefined exactly when the group does not hold the name; otherwise the expression evaluated at the zoom with no feature |
| Style.UnlistedPropertyIsUndefined | Source/style/StyleLayerProperties.js:9-19 | a name the reference does not list reads as undefined even when the style document gives a value for it |
| Style.NewStyleLayer | Source/style/StyleLayer.js:8-24 | id, type, source and source layer are copied; a missing or zero minzoom becomes 0 and a missing or zero maxzoom becomes 24; a filter exists exactly when the layer gives a truthy one, and is then the one given; the groups hold the reference's names |
| Style.ConvertColor | Source/style/StyleLayer.js:32-42 | alpha is kept; with a positive alpha each colour channel times alpha gives back the input channel; a colour whose alpha is not positive is returned unchanged |
| Style.ConvertColorUndoesPremultiply | Source/style/StyleLayer.js:26-33 | for a positive alpha, converting an alpha-premultiplied colour gives back the original colour |
| Registry.EmptyLayerTables | Source/layers/registerRenderLayer.js:4-11 | both tables start empty: every type looks up as undefined |
| Registry.RegisterRenderLayer | Source/layers/registerRenderLayer.js:19-22 | the type maps to the given layer class and to the given visualizer class, or to none when the visualizer is omitted; every other type keeps its entries |
| Registry.RegisterRenderLayerOverwrites | Source/layers/registerRenderLayer.js:19-22 | registering a type twice leaves only the second registration's effect |
| Registry.DefaultLayerTables | Source/layers/BackgroundRenderLayer.js:89 | after the layer modules load, exactly background, fill, line and symbol are registered; background has no visualizer and the other three have their own |
| Registry.RegisterSource | Source/sources/registerSource.js:13-15 | the source type maps to the given class and every other type keeps its entry |
| Registry.DefaultSources | Source/sources/VectorSource.js:45 | after the source modules load, exactly `vector` and `geojson` are registered, each to its own class |
| RenderLayers.NewRenderLayer | Source/layers/IRenderLayer.js:34-75 | a new layer keeps its source features, style and tile, has batch ids -1 and -1, no features and no commands, empty offset and count tables, no state or visibility, and is not destroyed |
| RenderLayers.Id | Source/layers/IRenderLayer.js:77-79 | the style layer's id; reading it throws exactly when the style was nulled |
| RenderLayers.Type | Source/layers/IRenderLayer.js:81-83 | the style layer's type; reading it throws exactly when the style was nulled |
| RenderLayers.Update | Source/layers/IRenderLayer.js:90-100 | throws exactly when the style or tile was nulled; otherwise the frame's commands are kept as a prefix, a layer whose layout visibility is `none` at the tile's level adds nothing, and any other layer appends exactly its own commands |
| RenderLayers.Destroy | Source/layers/IRenderLayer.js:113-127 | the layer reports itself destroyed, its commands and source features are emptied, style, tile, offsets and counts are nulled, and its batch ids and features are kept |
| RenderLayers.DestroyedLayerCannotUpdate | Source/layers/IRenderLayer.js:77-127 | after destroy, update, id and type all throw |
| RenderLayers.UpdateForwardsEveryTime | Source/layers/IRenderLayer.js:90-100 | updating a visible layer twice forwards its commands twice |
| Visualizers.NewVisualizer | Source/layers/visualizers/ILayerVisualizer.js:23-37 | a new visualizer refers to its tile, starts in state `none`, is not destroyed, and holds the given layers or, when none are given, an empty list |
| Visualizers.DestroyVisualizer | Source/layers/visualizers/ILayerVisualizer.js:62-68 | the visualizer reports itself destroyed, its tile is cleared and its layer list emptied; its state is kept |
| RenderList.NewRenderList | Source/VectorTileRenderList.js:4-17 | a new list keeps its style layers and starts with no buckets, an empty index map and no tile commands |
| RenderList.IndexIdsLastWins | Source/VectorTileRenderList.js:21-25 | after the indexing loop an id is indexed exactly when it was before or some style layer carries it; a style id maps to the last position carrying it; other entries are kept |
| RenderList.Init | Source/VectorTileRenderList.js:19-28 | throws exactly when the index map is gone and there is a style layer; otherwise the first n buckets are emptied or created, later buckets are kept, every style id is indexed, and both command lists are emptied |
| RenderList.BeginFrame | Source/VectorTileRenderList.js:30-37 | every bucket and both command lists are emptied; the style layers, the index map and the number of buckets are kept |
| RenderList.Push | Source/VectorTileRenderList.js:39-42 | throws exactly when the layer has no bucket; otherwise the layer is appended to its own bucket and nothing else changes |
| RenderList.GetList | Source/VectorTileRenderList.js:47-57 | the buckets one after another in style order; every listed layer comes from some bucket |
| RenderList.FlattenMembers | Source/VectorTileRenderList.js:51-55 | every layer of the concatenated buckets comes from some bucket |
| RenderList.FlattenSplit | Source/VectorTileRenderList.js:51-55 | the list splits at any bucket into the earlier buckets, that bucket, and the later buckets |
| RenderList.PushThenGetList | Source/VectorTileRenderList.js:39-57 | a pushed layer is listed right after everything queued for its own and earlier style layers, and before everything queued for later style layers |
| RenderList.BeginFrameEmpties | Source/VectorTileRenderList.js:30-57 | after beginFrame the list is empty |
| RenderList.PushAllFails | Source/VectorTileRenderList.js:39-42 | a sequence of pushes throws exactly when some layer has no bucket |
| RenderList.PushAllGroups | Source/VectorTileRenderList.js:39-42 | after a sequence of pushes each bucket holds its old layers followed by exactly the pushed layers of its style layer, in push order |
| RenderList.Destroy | Source/VectorTileRenderList.js:59-64 | the style layers and buckets are emptied, the index map is dropped, the command lists are emptied, and the list is empty |
| RenderList.DestroyedRejectsPush | Source/VectorTileRenderList.js:39-64 | after destroy every push throws |
| Strings.FindFrom | Source/sources/VectorSource.js:32 | the search returns the lowest index at or after the start where the pattern occurs, or nothing when it occurs nowhere there |
| Strings.ReplaceFirst | Source/sources/VectorSource.js:32 | a string-pattern `replace` changes only the first occurrence of the pattern, and leaves a string without one unchanged |
| Strings.NatToString | Source/sources/VectorSource.js:32 | a coordinate is written as a non-empty run of decimal digits |
| Strings.NatToStringValue | Source/sources/VectorSource.js:32 | the digits, read back in base ten, give the coordinate; the first digit is 0 only for the coordinate 0, which is written "0" |
| Strings.FindFirstOccurrence | Source/sources/VectorSource.js:32 | the search finds an occurrence that has none before it |
| Strings.ReplaceAfterBraceFree | Source/sources/VectorSource.js:32 | a placeholder preceded only by brace-free text is the one replaced |
| Strings.ReplaceInTurn | Source/sources/VectorSource.js:32 | three first-occurrence replacements in turn put each substitute exactly where its placeholder was, when earlier text and substitutes hold no brace |
| Tokens.NextBrace | Source/style/StyleLayerProperties.js:30 | the first brace at or after a position, with no brace in between |
| Tokens.NoTokenUnchanged | Source/style/StyleLayerProperties.js:29-33 | a text without a `{key}` token comes back unchanged |
| Tokens.LeadingToken | Source/style/StyleLayerProperties.js:29-33 | a leading token is replaced by the property's string value, or by the empty string when the property is missing; the replacement is not rescanned and the scan resumes after the closing brace |
| Tokens.LiteralCopied | Source/style/StyleLayerProperties.js:29-33 | text without an opening brace is copied unchanged ahead of the rest |
| Tokens.LiteralThenToken | Source/style/StyleLayerProperties.js:29-33 | substitution runs left to right: brace-free text is copied, the first token is replaced, and the remainder is resolved |
| Tokens.EmptyBracesLiteral | Source/style/StyleLayerProperties.js:30 | `{}` is not a token, so both braces stay |
| Tokens.DoubleBracesKeepOuter | Source/style/StyleLayerProperties.js:30 | in `{{key}}` only the inner braces form a token and the outer ones stay |
| Tokens.NullPropertiesEraseTokens | Source/style/StyleLayerProperties.js:31 | with null properties every token becomes the empty string |
| VectorSource.ResolveUrl | Source/sources/VectorSource.js:33 | a URL starting with `http`, `https`, `data:` or `/` is used as is, and any other gets the style document's directory prepended |
| VectorSource.ResolveUrlIdempotent | Source/sources/VectorSource.js:15 | when the directory itself passes the test, prefixing twice is the same as prefixing once |
| VectorSource.RequestTile | Source/sources/VectorSource.js:29-42 | without a first tile template nothing is fetched and nothing is returned; otherwise the templated and prefixed URL is fetched and its decoded tile returned, and a failed fetch or decode returns nothing |
| VectorSource.PlainTemplateUnchanged | Source/sources/VectorSource.js:32 | a template without placeholders is used verbatim |
| VectorSource.TemplateSubstitution | Source/sources/VectorSource.js:32 | with one each of `{x}`, `{y}`, `{z}` in that order, the coordinates' decimal digits land exactly where the placeholders were |
| VectorSource.MergeMetadata | Source/sources/VectorSource.js:18-22 | every metadata member is copied over a missing or falsy parameter; truthy parameters, and parameters the metadata lacks, are kept |
| VectorSource.MergeMetadataIdempotent | Source/sources/VectorSource.js:18-22 | merging the same metadata twice changes nothing more |
| VectorSource.Init | Source/sources/VectorSource.js:11-27 | metadata is fetched from the prefixed `url` exactly when `url` is set and `tiles` is falsy; a failed fetch leaves the parameters as they were, and a successful one merges the metadata |
| VectorSource.MetadataSuppliesTiles | Source/sources/VectorSource.js:11-32 | a source given only a TileJSON URL takes its tile template from the metadata, which tile requests then use |
| LineLayer.CandidateLines | Source/layers/LineRenderLayer.js:49-68 | a line string offers its one coordinate list, a multi-line string or a polygon each of its lists, and a point or multi-point none |
| LineLayer.KeepDrawable | Source/layers/LineRenderLayer.js:28-29 | exactly the lists of at least two positions are kept, and nothing else is added |
| LineLayer.KeepDrawableOne | Source/layers/LineRenderLayer.js:28-29 | one list is kept as itself when it has at least two positions, and dropped otherwise |
| LineLayer.KeepDrawableAppend | Source/layers/LineRenderLayer.js:56-64 | filtering two lists of rings one after the other gives the kept rings of the first followed by those of the second, so order is kept |
| LineLayer.KeepDrawableConcat | Source/layers/LineRenderLayer.js:59-64 | filtering all rings of all polygons at once is the same as filtering each polygon's rings and joining the results in polygon order |
| LineLayer.RingsPolylines | Source/layers/LineRenderLayer.js:55-58 | a multi-line string or a polygon yields exactly its lists of at least two positions, in order |
| LineLayer.Polylines | Source/layers/LineRenderLayer.js:41-69 | every polyline built has at least two positions |
| LineLayer.LineStringPolyline | Source/layers/LineRenderLayer.js:51-53 | a line string yields itself as one polyline when it has at least two positions, and nothing otherwise |
| LineLayer.MultiPolygonRings | Source/layers/LineRenderLayer.js:59-64 | a multi-polygon yields, polygon by polygon, the rings of at least two positions of each polygon in their order |
| LineLayer.PolylinesAppend | Source/layers/LineRenderLayer.js:41-69 | the polylines of two feature lists are those of the first followed by those of the second |
| LineLayer.PointsYieldNothing | Source/layers/LineRenderLayer.js:43-68 | features without geometry, or with point geometry, yield no polyline |
| FillVisualizer.NewFill | Source/layers/visualizers/FillLayerVisualizer.js:21-27 | a new fill visualizer refers to its tile, has no layers and no pending instances, has no primitive, and is in state `none` |
| FillVisualizer.KeepPolygons | Source/layers/visualizers/FillLayerVisualizer.js:62-63 | exactly the polygons none of whose rings has fewer than three points are kept, each tagged with its feature's id |
| FillVisualizer.KeptPolygons | Source/layers/visualizers/FillLayerVisualizer.js:43-87 | every polygon kept for a layer is drawable |
| FillVisualizer.KeptPolygonsSources | Source/layers/visualizers/FillLayerVisualizer.js:43-63 | every kept polygon comes from a feature of polygon type whose `fill-pattern` is falsy |
| FillVisualizer.KeptPolygonsComplete | Source/layers/visualizers/FillLayerVisualizer.js:43-63 | every drawable polygon of such a feature is kept |
| FillVisualizer.AddLayer | Source/layers/visualizers/FillLayerVisualizer.js:35-93 | exactly one instance is appended per kept polygon: the k-th new instance has batch id n+k, where n is the number of instances before, and carries the k-th kept polygon's rings and feature id; the layer gets the first and last new batch id (its old ones when nothing is kept) and empty offsets and counts, and is appended to the visualizer's layers |
| FillVisualizer.LayerRangeCoversItsInstances | Source/layers/visualizers/FillLayerVisualizer.js:65-69 | every instance a layer adds has a batch id within the layer's first and last batch id |
| FillVisualizer.RunsExtend | Source/layers/visualizers/FillLayerVisualizer.js:270-281 | one step of the index scan keeps, for every batch id seen, the maximal run it last occupied |
| FillVisualizer.Batches | Source/layers/visualizers/FillLayerVisualizer.js:262-281 | the scan records every batch id that occurs, each with the last maximal run of index positions carrying it |
| FillVisualizer.IndexBatchIds | Source/layers/visualizers/FillLayerVisualizer.js:270-272 | the batch id at each index position is that of the vertex it indexes |
| FillVisualizer.FirstIn | Source/layers/visualizers/FillLayerVisualizer.js:291-297 | the lowest batch id of a range that has a record, or none when no id of the range has one |
| FillVisualizer.LastIn | Source/layers/visualizers/FillLayerVisualizer.js:291-297 | the highest batch id of a range that has a record, or none when no id of the range has one |
| FillVisualizer.ScanRangeFinds | Source/layers/visualizers/FillLayerVisualizer.js:290-297 | the upward loop over a layer's batch ids keeps the begin of the lowest recorded id and ends with the end of the highest one |
| FillVisualizer.LayerRange | Source/layers/visualizers/FillLayerVisualizer.js:284-306 | a layer gets no range in a pass exactly when a batch bound is -1 or none of its ids is recorded; otherwise the range runs from the begin of its lowest recorded id to the end of its highest |
| FillVisualizer.AssignRange | Source/layers/visualizers/FillLayerVisualizer.js:299-305 | a layer with a range gets that pass's offset and count; every other pass's entries, and a layer without a range, are untouched |
| FillVisualizer.PassBatches | Source/layers/visualizers/FillLayerVisualizer.js:261-281 | one batch record per merged geometry, each the scan of its index array |
| FillVisualizer.PassRanges | Source/layers/visualizers/FillLayerVisualizer.js:284-306 | the range of a layer in each pass is computed from that pass's record and the layer's unchanged batch bounds |
| FillVisualizer.LayerAfterPasses | Source/layers/visualizers/FillLayerVisualizer.js:261-307 | the passes change only a layer's offsets and counts |
| FillVisualizer.LayerAfterPassesRanges | Source/layers/visualizers/FillLayerVisualizer.js:261-307 | after the passes a layer holds the offset and count of every pass where it has a range, and its old entries for every other pass |
| FillVisualizer.OnGeometriesLoaded | Source/layers/visualizers/FillLayerVisualizer.js:259-308 | each layer ends as its own run of the passes, using only its own batch bounds |
| FillVisualizer.PassCommands | Source/layers/visualizers/FillLayerVisualizer.js:342-363 | one command per pass whose offset and count are both set, with that offset and count, in pass order, and no other |
| FillVisualizer.CreateLayerCommands | Source/layers/visualizers/FillLayerVisualizer.js:323-368 | every layer's command list is replaced by its pass commands and nothing else about it changes |
| FillVisualizer.Update | Source/layers/visualizers/FillLayerVisualizer.js:370-407 | the frame's command list is unchanged on every path. A destroyed visualizer does nothing. A settled or idle one only creates its primitive when instances are pending. Otherwise the pending instances are cleared and the primitive exists. A throw sets `error`. Otherwise the state becomes `done` exactly when batched commands appeared. After a successful primitive update every layer holds the offsets and counts of the loaded geometries' passes and, when commands appeared, one draw command per pass where it has both |
| FillVisualizer.UpdateDrawsLayerRanges | Source/layers/visualizers/FillLayerVisualizer.js:284-363 | after a successful update that produced commands, a layer that started with no offsets or counts draws a pass with a given offset and count exactly when that pass is one of the commands and the layer's batch ids in that pass span that range |
| FillVisualizer.CommandsOfRanges | Source/layers/visualizers/FillLayerVisualizer.js:342-363 | a layer that starts with no offsets or counts and runs all its passes gets a draw command for a pass with a given offset and count exactly when the pass is below the command count and the layer's range in that pass is that offset and count |
| FillVisualizer.UpdateAsWritten | Source/layers/visualizers/FillLayerVisualizer.js:383-396 | as written, a throwing primitive update leaves the frame with the temporary command list; the visualizer ends as in the corrected update |
| FillVisualizer.AsWrittenDropsFrameCommands | Source/layers/visualizers/FillLayerVisualizer.js:383-396 | when the primitive update throws, the code as written loses every command already queued for the frame, which the corrected update keeps |
| FillVisualizer.SettledVisualizerIsInert | Source/layers/visualizers/FillLayerVisualizer.js:381 | once `done` or `error` with a primitive, update changes nothing |
| FillVisualizer.EmptyVisualizerStaysNone | Source/layers/visualizers/FillLayerVisualizer.js:377-381 | a visualizer that kept no polygon never creates a primitive and stays in `none` |
| SymbolVisualizer.NewSymbol | Source/layers/visualizers/SymbolLayerVisualizer.js:21-33 | a new symbol visualizer refers to its tile, has no layers, no labels and no label collection, and is in state `none` |
| SymbolVisualizer.LabelText | Source/layers/visualizers/SymbolLayerVisualizer.js:89-104 | a feature gets labels exactly when it has geometry, a falsy `icon-image`, a truthy `text-field` and a non-empty resolved text; the label text is the `text-field` with its tokens resolved against the feature's properties |
| SymbolVisualizer.AddTexts | Source/layers/visualizers/SymbolLayerVisualizer.js:69-87 | one new, shown label per anchor inside the tile rectangle, numbered by the label count, and none for an anchor outside; earlier labels are kept |
| SymbolVisualizer.AddFeatures | Source/layers/visualizers/SymbolLayerVisualizer.js:89-137 | labels are only appended, keep their numbering consecutive, and each new one is shown and inside the tile |
| SymbolVisualizer.AddFeaturesSound | Source/layers/visualizers/SymbolLayerVisualizer.js:89-133 | every new label has the text of a feature that gets labels and sits at one of its anchors |
| SymbolVisualizer.AddFeaturesComplete | Source/layers/visualizers/SymbolLayerVisualizer.js:89-133 | every anchor inside the tile of every feature that gets labels has a new label with that feature's text |
| SymbolVisualizer.AddLayer | Source/layers/visualizers/SymbolLayerVisualizer.js:64-140 | the layer's label list gains exactly the numbers of the new labels, in order, and the layer is appended to the visualizer's layers |
| SymbolVisualizer.AddLayerKeepsWellFormed | Source/layers/visualizers/SymbolLayerVisualizer.js:84-86 | adding a fresh layer keeps label numbers equal to positions, every layer reference a label, and no label shared by two layers |
| SymbolVisualizer.CreatePrimitive | Source/layers/visualizers/SymbolLayerVisualizer.js:142-161 | every label is added to the collection and nothing else about it changes; the collection exists afterwards |
| SymbolVisualizer.ReferencesResolveAfterCreate | Source/layers/visualizers/SymbolLayerVisualizer.js:154-158 | after the collection is created every layer reference leads to an added label with the referenced batch id |
| SymbolVisualizer.UpdateAsWritten | Source/layers/visualizers/SymbolLayerVisualizer.js:163-189 | as written, an update in state `none` always throws and leaves the state `none`, creating the collection first when labels exist; in any other state it does nothing |
| SymbolVisualizer.Update | Source/layers/visualizers/SymbolLayerVisualizer.js:163-189 | with the command list and `setState` in place: outside `none` nothing changes; without labels the state becomes `done`; otherwise the collection exists, its commands become the visualizer's own, a failed collection sets `error`, and the state becomes `done` exactly when the frame's list already held commands |
| SymbolVisualizer.AsWrittenNeverLeavesNone | Source/layers/visualizers/SymbolLayerVisualizer.js:164-188 | as written, a symbol visualizer in `none` throws on every update and never leaves `none` |
| SymbolVisualizer.FirstInFrameStaysNone | Source/layers/visualizers/SymbolLayerVisualizer.js:179-181 | an update that is the first of its frame to add commands stays in `none` even when the collection produced commands, because the test reads the frame's list |
| SymbolVisualizer.SetShow | Source/layers/visualizers/SymbolLayerVisualizer.js:199-205 | the labels a layer references take the given flag; every other label keeps its own |
| SymbolVisualizer.ApplyLayers | Source/layers/visualizers/SymbolLayerVisualizer.js:196-206 | the layer loop changes only the show flags of labels |
| SymbolVisualizer.ApplyLayersDecides | Source/layers/visualizers/SymbolLayerVisualizer.js:196-206 | with no label in two layers, each referenced label takes its own layer's decision and an unreferenced label keeps its flag |
| SymbolVisualizer.Render | Source/layers/visualizers/SymbolLayerVisualizer.js:191-218 | outside `done` nothing changes; when `done` only show flags and the collection's commands change, and no shown label is occluded |
| SymbolVisualizer.RenderShowsLayerLabels | Source/layers/visualizers/SymbolLayerVisualizer.js:198-210 | a label of a layer shows after rendering exactly when the layer is not hidden, the zoom is in the layer's range, and the label's anchor is not occluded |
| SymbolVisualizer.RenderAsWritten | Source/layers/visualizers/SymbolLayerVisualizer.js:191-221 | as written, render throws exactly when the visualizer is `done`; the labels take their show decisions first, and the command list is left as it was, since emptying the undefined list throws before the collection draws |
| SymbolVisualizer.DestroySymbol | Source/layers/visualizers/SymbolLayerVisualizer.js:223-226 | the collection is dropped, the base is destroyed and its layers emptied; the labels are kept |
| Tiles.NewTile | Source/VectorTileLOD.js:87-150 | a new tile sits at its coordinates with its key and parent, has no children, layers, visualizers or source data, is in state `none`, not renderable, never visited, and has no distance or visibility yet |
| Tiles.AddTile | Source/VectorTileLOD.js:135 | the new tile takes the next key and the counter moves up by one; no other tile changes |
| Tiles.AddTileKeepsArena | Source/VectorTileLOD.js:135 | a fresh key keeps every key below the counter and every child one level below its parent |
| Tiles.CreateChildren | Source/VectorTileLOD.js:152-179 | four new tiles one level down, at (2x, 2y+1), (2x+1, 2y+1), (2x, 2y), (2x+1, 2y) in that order, with consecutive keys and the tile as parent; they are appended to the tile's children and no other tile changes |
| Tiles.CreateChildrenKeepsArena | Source/VectorTileLOD.js:152-179 | creating the children of a childless tile keeps the quadtree well formed |
| Tiles.CreateChildrenForest | Source/VectorTileLOD.js:152-179 | creating the children of a childless tile keeps the tiles a forest: no tile lists a child twice and no tile is the child of two tiles |
| Tiles.ShiftOne | Source/VectorTileLOD.js:29 | `1 << z` is 2 to the power of `z` modulo 32, except that a count of 31 gives the negative value of 2 to the 31 |
| Tiles.LevelErrorHalves | Source/VectorTileLOD.js:21-30 | the level error halves from one level to the next below level 30 (modulo 32), is positive below 31 and negative at 31 |
| Tiles.SseNonIncreasing | Source/VectorTileLOD.js:38-52 | with fog contributing nothing, a farther tile at the same level never has a larger screen-space error |
| Tiles.Decide | Source/VectorTileLOD.js:186-206 | a tile is culled exactly when it is outside the view; otherwise it refines exactly when its screen-space error reaches the maximum, and at distance zero exactly when the level divisor is positive |
| Tiles.CloserRefines | Source/VectorTileLOD.js:186-206 | when a farther visible tile at a level refines, so does a closer visible one |
| Tiles.Visit | Source/VectorTileLOD.js:186-206 | visiting records the distance and the visibility on the tile and takes the decision for it, nothing else |
| Tiles.SourcesToLoad | Source/VectorTileLOD.js:211-232 | the requested ids are distinct, each is a registered source some style layer names, and every registered source some style layer names is requested |
| Tiles.CompleteLoad | Source/VectorTileLOD.js:224-236 | the end of a fetch pass stores every id whose request produced data, keeps the other source data, marks the tile `loaded` and lowers the loading count by one |
| Tiles.Filtered | Source/VectorTileLOD.js:275-281 | the kept features are exactly the source layer's features that pass the style layer's filter, all of them when it has none |
| Tiles.FalsyFilterKeepsAll | Source/style/StyleLayer.js:18-23 | a style layer given a falsy filter (`false`, `0`, `""`, `null`) keeps every feature of its source layer |
| Tiles.Outcome | Source/VectorTileLOD.js:258-290 | a style layer contributes only when its type is registered; a background layer has no features; any other layer has features only from its own loaded source, at least one, each passing the filter |
| Tiles.FindVisualizer | Source/VectorTileLOD.js:293-297 | the visualizer found for a type has that type; when none is found no visualizer this build created has it |
| Tiles.AddToVisualizer | Source/VectorTileLOD.js:293-301 | a layer with no visualizer class leaves the visualizers alone; otherwise there is at least one visualizer per created type |
| Tiles.AddToVisualizerPlaces | Source/VectorTileLOD.js:293-301 | the layer lands in the existing visualizer of its type, or in a new one of that type and class appended at the end; every other visualizer is unchanged |
| Tiles.AddToVisualizerKeeps | Source/VectorTileLOD.js:293-301 | after adding a layer, each visualizer holds valid layer indices of its own type and the created ones still have distinct types |
| Tiles.BuildFrom | Source/VectorTileLOD.js:257-302 | the build loop only appends to the tile's layers |
| Tiles.BuildKeepsVisualizers | Source/VectorTileLOD.js:257-302 | the whole loop keeps visualizer indices valid and of the right type, one visualizer per type |
| Tiles.BuildVisualizerClasses | Source/VectorTileLOD.js:293-297 | every visualizer the build creates carries the class registered for its type, and the ones the tile had are untouched |
| Tiles.BuildLayersSound | Source/VectorTileLOD.js:257-290 | every layer the build adds is the render layer made from a later style layer whose outcome has features, with exactly those features |
| Tiles.AllPlacedExtend | Source/VectorTileLOD.js:293-301 | placing one more layer extends "every layer with a visualizer class is placed" by one index |
| Tiles.PlacedPersists | Source/VectorTileLOD.js:299-301 | appending layers to visualizers never unplaces a layer |
| Tiles.BuildPlacesLayers | Source/VectorTileLOD.js:293-301 | every added layer whose type has a visualizer class sits in a visualizer the build created |
| Tiles.BuildGrows | Source/VectorTileLOD.js:299-301 | the build only appends to each visualizer's layer list |
| Tiles.BuildThrows | Source/VectorTileLOD.js:266 | the build throws exactly when some style layer from the current one on has no tileset source type |
| Tiles.CreateRenderLayers | Source/VectorTileLOD.js:242-305 | only layers, visualizers and state change; the tile ends `ready` exactly when no style layer throws and otherwise stays `initializing`; the old layers are kept, each new one comes from a style layer, and each new one with a visualizer class is placed in the one new visualizer of its type |
| Tiles.UpdateLayers | Source/VectorTileLOD.js:431-436 | updating the layers in turn only appends to the frame's command list |
| Tiles.LoadStep | Source/VectorTileLOD.js:409-413 | a tile in `none` is admitted exactly while the loading count is at most the cap; an admitted tile with ids to request is `loading` with the count one up, with nothing to request it is `loaded` at once with the count unchanged; no other tile field changes |
| Tiles.BuildStep | Source/VectorTileLOD.js:416-420 | a `loaded` tile is built exactly while the initializing count is below the cap, and then the count goes up by one |
| Tiles.CreateRenderLayersLive | Source/VectorTileLOD.js:242-305 | after the build every layer of the tile holds its style and its tile |
| Tiles.ReadyStep | Source/VectorTileLOD.js:422-439 | every visualizer takes its updated state, the layers forward their commands, and the tile is renderable exactly when no visualizer is `none` and no visible layer is `none` |
| Tiles.TileUpdate | Source/VectorTileLOD.js:312-440 | the loading count rises only by an admitted load that leaves a fetch pending; a tile in `none` that is not admitted is left exactly as it was; the initializing count rises only below its cap; a `ready` tile is renderable exactly when all its parts are ready, and any other keeps its flag and the frame |
| Tiles.SourceIds | Source/VectorTileLOD.js:216-222 | the source id of each style layer, in style order |
| Tiles.UndefinedCapsAdmitNothing | Source/VectorTileLOD.js:409 | with no caps set (`n <= undefined` is false) a tile in `none` never changes |
| Tiles.NothingToFetchLoadsAtOnce | Source/VectorTileLOD.js:211-236 | a tile whose style layers name no tileset source leaves no fetch pending, keeps the loading count, and moves past `loading` in the same update |
| Tiles.Render | Source/VectorTileLOD.js:442-454 | a tile that is not renderable pushes nothing; rendering changes only the render list's buckets, never their number |
| Tiles.RenderGroupsLayers | Source/VectorTileLOD.js:452-454 | a renderable tile's render throws exactly when one of its layers has no bucket; otherwise each bucket gains exactly the tile's layers of that style layer, in tile order |
| Tiles.RenderAsWritten | Source/VectorTileLOD.js:442-469 | as written, render fails whenever a fill visualizer, or a symbol visualizer that is `done`, is on the tile, and otherwise agrees with the corrected render |
| Tiles.RenderAsWrittenFailsWithFill | Source/VectorTileLOD.js:456-458 | a renderable tile with a fill visualizer can never be rendered as written, although the corrected render succeeds whenever its pushes do |
| Tiles.Unload | Source/VectorTileLOD.js:474-509 | unloading returns the tile to `none` with no layers, visualizers or source data; every other field, its children and `renderable` flag included, is kept |
| Tileset.MaxZoomOf | Source/VectorTileset.js:70 | `maxzoom || 24`: a set, non-zero `maxzoom` is taken as is, a missing or falsy one gives 24 |
| Tileset.InitSource | Source/VectorTileset.js:67-73 | a vector source's `init` never throws and leaves its parameters with the metadata merged in; a GeoJSON source keeps its parameters and throws as its index build says |
| Tileset.InstantiateSources | Source/VectorTileset.js:62-75 | the level cap after the loop is the minimum of the cap before it and the `maxzoom` (24 when unset) of every registered source whose `init` succeeded: at most each of them, and equal to the old cap or to one of them |
| Tileset.InstantiateSourcesKeys | Source/VectorTileset.js:62-75 | after the loop the sources are exactly the old ones plus every id whose `type` names a registered source class, whether or not its `init` threw, each new one with the class of its type |
| Tileset.MaxzoomFromMetadata | Source/VectorTileset.js:67-70 | a vector source given only by a TileJSON URL takes its level cap from the metadata's `maxzoom`, because the merge writes into the parameters the cap is read from |
| Tileset.NewTileset | Source/VectorTileset.js:15-42 | a new tileset is not ready, is shown, caps levels at 24, has no roots, cache, tiles to render or fetches, and both counters at zero; it meets the tileset invariant and its tiles are (vacuously) a forest |
| Tileset.CreateRoot | Source/VectorTileset.js:88-92 | one root takes the next key and, with its four children, five keys |
| Tileset.CreateRootArena | Source/VectorTileset.js:88-92 | the new root sits at its address at level 0 with no parent and four children, and the quadtree stays well formed |
| Tileset.RootPositions | Source/VectorTileset.js:83-95 | the level-zero addresses row by row, column by column: position `i` is column `i mod numX`, row `i div numX` |
| Tileset.CreateRoots | Source/VectorTileset.js:85-95 | one root per address, the key counter only moving up |
| Tileset.CreateRootsArena | Source/VectorTileset.js:85-95 | creating the roots keeps the quadtree well formed |
| Tileset.CreateRootsPlaced | Source/VectorTileset.js:85-95 | root `j` sits at address `j` at level 0 with four children |
| Tileset.CreateRootsFresh | Source/VectorTileset.js:85-95 | each root and its children are tiles created by this loop |
| Tileset.CreateRootsKeepTiles | Source/VectorTileset.js:85-95 | existing tiles are untouched and every added tile holds no layers or visualizers |
| Tileset.StyleLayersOf | Source/VectorTileset.js:78-80 | one style layer per layer of the document, in document order, each with the defaults filled in |
| Tileset.IdsOf | Source/VectorTileset.js:33 | the render list is keyed by the style layers' ids, in order |
| Tileset.Init | Source/VectorTileset.js:44-103 | without a style nothing changes; with one the tileset becomes ready, its sources are exactly the registered ids of the style, its roots and style layers are written from index 0, its level cap never rises, and it keeps its cache, tiles to render and fetches |
| Tileset.Overwrite | Source/VectorTileset.js:77-94 | writing a list into an array from index 0 puts the list first and keeps the array's entries past its end |
| Tileset.InitKeepsInv | Source/VectorTileset.js:44-103 | `init` keeps the tileset invariant: a well formed quadtree, roots at level 0 with four children, cached and rendered tiles in the tree, one pending fetch per loading tile, a ready tileset has a root, and no root's child is cached |
| Tileset.CreateRootsDistinct | Source/VectorTileset.js:81-93 | the roots `init` creates are distinct keys not in use before |
| Tileset.OverwriteDistinct | Source/VectorTileset.js:91 | writing fresh distinct roots over the first slots of distinct old roots leaves no root twice |
| Tileset.InitKeepsHierarchy | Source/VectorTileset.js:81-93 | `init` keeps the tiles a forest under distinct roots and leaves the tiles to render as they were |
| Tileset.AddRootsKeepsInv | Source/VectorTileset.js:85-95 | adding new empty roots with four fresh children keeps the invariant |
| Traversal.StampTile | Source/VectorTileLOD.js:186-191 | visiting a tile records the visit on that tile alone |
| Traversal.StampTileGrows | Source/VectorTileLOD.js:186-191 | a visit keeps the quadtree well formed and changes the tile only by recording distance and visibility |
| Traversal.CreateChildrenGrows | Source/VectorTileset.js:285-290 | creating children on a childless tile keeps the quadtree well formed and puts the children one level down |
| Traversal.ChildrenAtLevel | Source/VectorTileLOD.js:152-179 | the children of a tile in a well formed tree are in the tree one level down |
| Traversal.VisitLevel | Source/VectorTileset.js:278-306 | visiting one level keeps the tree well formed, changes tiles only by stamping visits and creating children, queues only tiles of the next level, and queues nothing at or past the level cap |
| Traversal.Traverse | Source/VectorTileset.js:303-306 | the level-by-level walk keeps the tree well formed and changes tiles only as a visit may |
| Traversal.GetTilesToRender | Source/VectorTileset.js:273-309 | with no root tile the walk throws; otherwise it keeps the tree well formed and changes tiles only as a visit may |
| Traversal.AdvanceOk | Source/VectorTileset.js:280-298 | one visited tile keeps the tree well formed and leaves the rest of the level and the queued next level at their levels |
| Traversal.ExpandNew | Source/VectorTileset.js:285-293 | a refining tile's children, new or existing, are queued at the next level |
| Traversal.CreateChildrenEmpty | Source/VectorTileset.js:285-290 | children created during the walk have fresh keys and hold no layers or visualizers |
| Traversal.VisitLevelExtends | Source/VectorTileset.js:278-306 | within a level the tiles to render only grow and every added one is chosen, the cache only grows by tiles created in the walk, and new tiles are empty |
| Traversal.TraverseExtends | Source/VectorTileset.js:303-306 | the same three promises hold for the whole walk |
| Traversal.GetTilesToRenderSound | Source/VectorTileset.js:273-309 | every tile to render was visited this frame and accepted or refines at or past the level cap; the cache gains exactly the tiles the walk created, each once; those tiles are empty with fresh keys |
| Traversal.VisitLevelDone | Source/VectorTileset.js:278-306 | after a level every tile of it that renders is among the tiles to render and every one that refines has children, all queued for the next level |
| Traversal.TraverseReaches | Source/VectorTileset.js:278-306 | the walk renders the end of every path down from its first level through refining tiles, when that end's own step is to render |
| Traversal.GetTilesToRenderComplete | Source/VectorTileset.js:273-309 | every tile at the end of a path down from a root through refining tiles whose own step is to render is among the tiles to render |
| Traversal.PathGrows | Source/VectorTileset.js:285-293 | a path down the tree stays a path as the walk stamps tiles and creates children |
| Traversal.ChildrenReached | Source/VectorTileset.js:291-293 | the children of a reached tile that refines are reached |
| Traversal.VisitLevelReached | Source/VectorTileset.js:278-306 | a level of reached tiles queues and renders only reached tiles |
| Traversal.GetTilesToRenderOnlyReached | Source/VectorTileset.js:273-309 | every tile to render is at the end of a path down from a root through refining tiles; with the two lemmas above, the tiles to render are exactly those path ends whose step is to render |
| Traversal.VisitLevelDistinct | Source/VectorTileset.js:278-306 | over a forest, a level without repeats renders each of its tiles at most once, renders nothing outside the level, and queues a next level without repeats |
| Traversal.GetTilesToRenderDistinct | Source/VectorTileset.js:273-309 | over a forest with distinct roots the walk lists no tile to render twice and leaves the tiles a forest |
| Traversal.VisitLevelAllRender | Source/VectorTileset.js:296-298 | a level whose tiles all render queues nothing and renders them in queue order |
| Traversal.RootsRenderAlone | Source/VectorTileset.js:273-309 | when every root renders as it stands, the tiles to render are exactly the roots, in order |
| Sorting.Insert | Source/VectorTileset.js:171 | inserting adds exactly the one element |
| Sorting.SortBy | Source/VectorTileset.js:171 | sorting is a permutation of its input |
| Sorting.InsertSorted | Source/VectorTileset.js:171 | inserting into an ascending sequence keeps it ascending |
| Sorting.SortBySorted | Source/VectorTileset.js:171 | the result ascends by the key (distance to the camera, or last visit time for expired tiles) |
| Sorting.SortBySortedInput | Source/VectorTileset.js:201 | an input already in order is returned unchanged |
| TilesetFrame.Lod | Source/VectorTileset.js:166-172 | with the globe's level of detail suspended the tileset is unchanged; otherwise only the tree, the cache and the tiles to render change |
| TilesetFrame.LodRenders | Source/VectorTileset.js:166-172 | after the walk the tiles to render ascend by distance to the camera and each was chosen by the walk under this frame's view |
| TilesetFrame.WalkKeepsInv | Source/VectorTileset.js:273-309 | taking the walk's tree, cache and tiles to render keeps the tileset invariant |
| TilesetFrame.LodKeepsInv | Source/VectorTileset.js:166-172 | the level-of-detail step keeps the tileset invariant |
| TilesetFrame.SourceTypes | Source/VectorTileLOD.js:266 | the build sees every tileset source's `type`, and only those |
| TilesetFrame.CtxOf | Source/VectorTileset.js:175-179 | each tile update of the frame meets the contract of a tile's `update` against this tileset's caps |
| TilesetFrame.VisitTile | Source/VectorTileset.js:175-179 | one iteration keeps every tile in the tree and every tile well formed |
| TilesetFrame.VisitTileFrame | Source/VectorTileset.js:175-179 | one iteration changes only the visited tile, keeps its place, stamps it with the frame number, marks it not expired, and queues at most one fetch for it, which the loading counter counts |
| TilesetFrame.VisitTileCounters | Source/VectorTileLOD.js:409-420 | one iteration raises each counter by at most one, the loading counter only while at most its cap and the initializing counter only while below its cap |
| TilesetFrame.UpdateTiles | Source/VectorTileset.js:175-179 | the update loop keeps every tile in the tree and well formed |
| TilesetFrame.UpdateTilesFrame | Source/VectorTileset.js:175-179 | the loop keeps every tile in its place, queues fetches only for visited tiles, keeps the loading counter counting the queue, and leaves tiles it does not visit untouched |
| TilesetFrame.UpdateTilesStamps | Source/VectorTileset.js:176-177 | every tile the loop visits ends it stamped with the frame number and not expired |
| TilesetFrame.UpdateTilesInitializing | Source/VectorTileLOD.js:416-420 | the loop never takes the initializing counter past its cap, and not at all when the cap is undefined |
| TilesetFrame.UpdateTilesLoading | Source/VectorTileLOD.js:409-413 | the loop never takes the loading counter past one more than its cap, and not at all when the cap is undefined |
| TilesetFrame.CandidatesSpec | Source/VectorTileset.js:195-200 | a tile is a candidate exactly when it is in the cache, was not visited this frame and is not already expired |
| TilesetFrame.ExpiredTilesSpec | Source/VectorTileset.js:195-201 | the expired tiles are exactly the candidates, least recently visited first |
| TilesetFrame.Expire | Source/VectorTileset.js:204-205 | expiring a tile unloads it and marks it expired, and changes no other tile |
| TilesetFrame.ExpireAll | Source/VectorTileset.js:203-207 | expiring a list keeps every tile in the tree |
| TilesetFrame.ExpireAllSpec | Source/VectorTileset.js:203-207 | every listed tile ends unloaded and expired, however often it is listed, and every other tile is untouched |
| TilesetFrame.SweepLoop | Source/VectorTileset.js:203-207 | the loop as written keeps every tile in the tree |
| TilesetFrame.SweepLoopAll | Source/VectorTileset.js:203-207 | with more than 50 expired tiles the loop as written never exits early: it expires every tile from its index on |
| TilesetFrame.SweepAsWrittenUnloadsAll | Source/VectorTileset.js:202-208 | as written, a sweep over more than 100 expired tiles unloads every one of them |
| TilesetFrame.Sweep | Source/VectorTileset.js:202-208 | the intended sweep keeps every tile in the tree |
| TilesetFrame.SweepSpec | Source/VectorTileset.js:202-208 | the intended sweep leaves at most 100 expired tiles alone, otherwise unloads and expires all but the 50 most recently visited, and touches nothing else |
| TilesetFrame.SweepDiscrepancy | Source/VectorTileset.js:206 | with 101 distinct expired tiles the sweep as written unloads the most recently visited one, which the intended sweep keeps |
| TilesetFrame.ExpireAllKeepsShape | Source/VectorTileset.js:203-207 | expiring keeps every tile in its place in the quadtree and well formed |
| TilesetFrame.SameTreeArena | Source/VectorTileLOD.js:152-179 | replacing tiles by ones at the same place keeps the quadtree well formed |
| TilesetFrame.WithPassKeepsInv | Source/VectorTileset.js:175-179 | taking a pass's tiles, counters and queue keeps the tileset invariant when every tile keeps its place and the loading counter counts the queue |
| TilesetFrame.Begin | Source/VectorTileset.js:150-154 | the frame starts with an empty render list and keeps the invariant |
| TilesetFrame.Visited | Source/VectorTileset.js:150-179 | up to the sweep, the frame keeps the invariant, keeps every tile in the tree and every cached tile in it |
| TilesetFrame.VisitedKeepsInv | Source/VectorTileset.js:150-179 | the update loop keeps the tileset invariant |
| TilesetFrame.Update | Source/VectorTileset.js:143-209 | before `init` or while hidden `update` changes nothing and draws nothing |
| TilesetFrame.SweepKeepsTiles | Source/VectorTileset.js:195-208 | the sweep keeps every tile in its place and well formed |
| TilesetFrame.UpdateKeepsInv | Source/VectorTileset.js:143-209 | a frame keeps the tileset invariant |
| TilesetFrame.LodKeepsHierarchy | Source/VectorTileset.js:166-172 | the walk and the distance sort keep the tiles a forest under distinct roots, and the tiles to render hold no tile twice |
| TilesetFrame.UpdateKeepsHierarchy | Source/VectorTileset.js:143-209 | a frame keeps the tiles a forest under distinct roots and lists no tile to render twice, so no tile is updated twice in one frame |
| TilesetFrame.SweepTilesIn | Source/VectorTileset.js:195-201 | every expired tile is a tile of the tree |
| TilesetFrame.UpdateInitializing | Source/VectorTileset.js:154-179 | a frame starts at most as many builds as the cap, and none when it is undefined |
| TilesetFrame.UpdateLoading | Source/VectorTileset.js:175-179 | in a frame the loading counter grows to at most one more than its cap, and not at all when the cap is undefined |
| TilesetFrame.UpdateEmptiesRenderList | Source/VectorTileset.js:152-187 | after a frame the render list holds no layer, since tile updates never push to it |
| TilesetFrame.SweepSparesVisited | Source/VectorTileset.js:196-198 | the sweep never touches a tile visited in this frame |
| TilesetFrame.UpdateKeepsVisited | Source/VectorTileset.js:175-208 | every tile to render of the frame ends it stamped with the frame number, not expired, and left alone by the sweep |
| TilesetFrame.UpdateSuspended | Source/VectorTileset.js:166 | with the level of detail suspended a frame keeps last frame's tiles to render and cache |
| TilesetFrame.ChosenSameTree | Source/VectorTileset.js:175-179 | updating a tile's state keeps it chosen and at the same distance |
| TilesetFrame.UpdateRendersChosen | Source/VectorTileset.js:166-179 | without suspension the frame's tiles to render ascend by distance to the camera and each was chosen by the walk under the frame's view |
| TilesetFrame.CompleteFetch | Source/VectorTileLOD.js:224-236 | a completed fetch changes only its tile, which becomes `loaded`; the loading counter drops by one and the pass leaves the queue |
| TilesetFrame.CompleteFetchKeepsInv | Source/VectorTileLOD.js:224-236 | completing a fetch keeps the tileset invariant, the loading counter still counting the queue |
| TilesetFrame.CompleteFetchKeepsHierarchy | Source/VectorTileLOD.js:224-236 | completing a fetch changes no tile's children, so the tiles stay a forest |

## Left out

- Cesium rendering: draw-command cloning, render states, primitives and label collections, framebuffers, and `executeTileIdCommands` are GPU and foreign-library calls. The tile-colour, tile-id and tile-depth commands of `update` and `render` (Source/VectorTileLOD.js:317-404, 460-468) and the `showTileColor` push are left out with them.
- Floating-point geometry is left out: the Mercator transform of features, polygon subdivision and normals, the horizon occlusion test and the tile rectangle test. Occlusion and the rectangle test are predicates given to the model.
- The camera is given to the model as functions: distance to the camera, visibility, the fog term, drawing-buffer height, frustum denominator and pixel ratio. The level-zero geometric error is a parameter, since the ellipsoid estimate is a Cesium call.
- Network and decoding are oracles: `fetch`, Pbf and `VectorTile` decoding, `Resource.fetchJson`, and fetching the style document from a URL in `init`.
- Promise interleaving is not modelled. A fetch pass is a start event inside the tile's `update` and a separate completion event, `TilesetFrame.CompleteFetch`. The requests of one pass all complete together.
- Style expressions, `featureFilter`, `normalizePropertyExpression` and `warnOnce`, including the webgl2 warning, belong to the style-spec library. Expression values and filters are oracles, and logging is not modelled.
- Source/sources/GeoJSONSource.js is not part of this model. A GeoJSON source's `init` is an oracle saying whether it succeeded.
- The line visualizer is not part of this model. Its `render` is taken not to throw, and its state comes from the same per-visualizer update oracle as the others.
- Visualizer updates inside a tile's `update` are an oracle giving each visualizer's new state. The fill and symbol modules model those updates on their own.
- Tiles.TileUpdate: the per-visualizer update oracle cannot throw, so the model follows the corrected visualizer updates. As written, the symbol visualizer's `update` throws in state `none` (`SymbolVisualizer.AsWrittenNeverLeavesNone`), and with no `try` around it at Source/VectorTileLOD.js:425 the tile's `update` throws.
- TilesetFrame.Update: uses the corrected visualizer updates and the intended eviction sweep (`TilesetFrame.SweepSpec`). As written, the first symbol visualizer to update in state `none` throws out of the frame at Source/VectorTileset.js:175-179, and the sweep unloads every candidate once more than 100 are expired (see Findings).
- TilesetFrame.UpdateKeepsVisited: holds for the frame built on the corrected visualizer updates and the intended sweep. As written, a throw from a symbol visualizer's update ends the frame inside the loop at Source/VectorTileset.js:175-179, so the tiles after that one in the list are neither stamped with the frame number nor cleared of `expired`.
- Tiles.ReadyStep: the render layers of the tile do not receive what the fill visualizer writes into them during its update (each layer's offsets, counts and command list, Source/layers/visualizers/FillLayerVisualizer.js:303-304, 339). In the source those are the same objects, so `layer.update` at Source/VectorTileLOD.js:430 sees them. The model keeps the fill visualizer's layers in `FillVisualizer` and the tile's own layers apart, and the tile's layers forward their existing command lists.
- `tileset.destroy`, tile `destroy` and source `destroy` are teardown that no modelled operation depends on.
- Per-feature line width and colour, fill colours, label fonts and sizes, and fill patterns beyond the "has a fill-pattern" test are left out.
- The fill visualizer's `sourceFeature.id || properties[promoteId]` feature id is left out. So is the throw when a layer's source is missing from the tileset. Offsets and counts are maps from pass index rather than sparse arrays.
- `for … in` key order of the style's source list is taken to be document order.
- The level-zero tiling is the default Web Mercator scheme's one tile by one (`Tileset.LevelZeroTilesX`, `Tileset.LevelZeroTilesY`). `Tileset.RootPositions` states the row-major order for any counts.
- A non-numeric truthy `maxzoom` (a string, say) is not modelled: `Math.min` would coerce it.
- JavaScript's `NaN` is not modelled. A tile's `distanceToCamera` is always defined by the time it is sorted, since the walk stamps every tile it renders.
- `resolveTokens` treats a key as present when it is in the properties object, which in JavaScript also matches inherited members such as `toString`. The model looks at own properties only, and takes each property value in its string form.
- `requestTile` with a non-array `tiles` is not modelled. A non-empty string `tiles` would make its first character the template, and a non-string `tiles[0]` throws before the `try`. The model fetches nothing in both cases, like a missing `tiles`.
- The base `addLayer` and `update` of `ILayerVisualizer` are empty hooks. The model has no separate members for them, since they change nothing.
- Sorting.SortBy: stability (equal keys keep their input order) is not proved; the model proves only that a sorted input is returned unchanged (`Sorting.SortBySortedInput`), because a general statement needs a correspondence between input and output positions.
- The layer updates of `renderList.getList()` in the tileset's `update` (Source/VectorTileset.js:182-187) are not run by `TilesetFrame.Update`. The list is always empty at that point (`TilesetFrame.UpdateEmptiesRenderList`).
- Tiles.Render: visualizer `render` is taken to do nothing. `Tiles.RenderAsWritten` states where it throws.
- TilesetFrame.Update: the frame's commands gain only what the tile updates add. The tile commands of `showTileColor` are left out as above.

## Findings

| source | as written | input that shows it | evidently intended | confidence | as-written member | corrected member |
|---|---|---|---|---|---|---|
| Source/VectorTileset.js:202-208 | the sweep breaks when `expiredTiles.length <= 50`, but that is the length of the list being iterated, which never shrinks, so with more than 100 candidates every candidate is unloaded | 101 expired cache tiles: all 101 are unloaded, the most recently visited included | unload the oldest until 50 candidates remain | not executed | TilesetFrame.SweepAsWrittenUnloadsAll | TilesetFrame.SweepSpec |
| Source/layers/visualizers/FillLayerVisualizer.js:383-396 | when `primitive.update` throws, the `catch` returns before `frameState.commandList = preCommandList` | a fill visualizer whose primitive throws while the frame already holds commands: the frame continues with the empty temporary list | restore the frame's command list on every path | not executed | FillVisualizer.AsWrittenDropsFrameCommands | FillVisualizer.Update |
| Source/layers/visualizers/SymbolLayerVisualizer.js:172-188 | `this.commandList` and `this.setState` are never defined by the class or its base | any update in state `none` with labels: `this.commandList.length = 0` throws; with no labels, `setState('done')` throws | keep a command list per visualizer and assign the state directly | not executed | SymbolVisualizer.AsWrittenNeverLeavesNone | SymbolVisualizer.Update |
| Source/VectorTileLOD.js:456-458 | `render` calls `visualizer.render`, which the base class does not define and the fill visualizer does not add; the symbol visualizer's ends by calling `super.render` | a renderable tile with a fill layer: `render` throws before pushing its tile-id commands | visualizers with nothing to render are skipped | not executed | Tiles.RenderAsWrittenFailsWithFill | Tiles.Render |
