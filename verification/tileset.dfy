/** The tileset scheduler (Source/VectorTileset.js): source instantiation and
    the level cap, the root tiles, the breadth-first level-of-detail traversal
    of `getTilesToRender`, the per-frame `update` (traversal, distance sort,
    tile updates under the two admission counters) and the eviction sweep
    over the cache of created child tiles. Fetch completions are separate
    events, since the fetches run concurrently with frames. */
module Tileset {
  import opened Wrappers
  import opened Features
  import opened Style
  import opened Registry
  import opened RenderLayers
  import opened Visualizers
  import VectorSource
  import opened Tiles
  import RenderList

  // ---------------------------------------------------------------------
  // Sources.

  /** A tileset source: its class, its `type`, and its parameters after
      `init` (a vector source's `init` merges TileJSON metadata into the very
      object the style document holds). */
  datatype Source = Source(cls: SourceClass, sourceType: string, params: map<string, Value>)

  /** The `type` member of a source entry, when it is a string. */
  function TypeOf(params: map<string, Value>): Option<string> {
    if "type" in params && params["type"].Str? then Some(params["type"].s) else None
  }

  /** `sourceParams.maxzoom || 24`: a non-zero number, otherwise 24. */
  function MaxZoomOf(params: map<string, Value>): (r: real)
    ensures TruthyField(params, "maxzoom") && params["maxzoom"].Num? ==> r == params["maxzoom"].n
    ensures !TruthyField(params, "maxzoom") ==> r == 24.0
  {
    if "maxzoom" in params && params["maxzoom"].Num? && params["maxzoom"].n != 0.0 then params["maxzoom"].n else 24.0
  }

  function Min(a: real, b: real): real {
    if a <= b then a else b
  }

  /** What `init` of a registered source leaves: its parameters, and whether
      it threw. A vector source's `init` catches its own errors; a GeoJSON
      source is outside this model, its parameters stay and `geojsonInitOk`
      says whether building its index succeeded. */
  function InitSource(cls: SourceClass, id: string, params: map<string, Value>, path: string,
                      fetchJson: string -> Option<map<string, Value>>, geojsonInitOk: string -> bool): (r: (map<string, Value>, bool))
    ensures cls == VectorSourceClass ==> r == (VectorSource.Init(params, path, fetchJson).params, true)
    ensures cls == GeoJsonSourceClass ==> r == (params, geojsonInitOk(id))
  {
    match cls
    case VectorSourceClass => (VectorSource.Init(params, path, fetchJson).params, true)
    case GeoJsonSourceClass => (params, geojsonInitOk(id))
  }

  /** A source entry whose `type` is registered and whose `init` succeeds. */
  predicate InitOk(spec: (string, map<string, Value>), table: map<string, SourceClass>, path: string,
                   fetchJson: string -> Option<map<string, Value>>, geojsonInitOk: string -> bool)
  {
    TypeOf(spec.1).Some? && LookupSource(table, TypeOf(spec.1).value).Some? &&
    InitSource(LookupSource(table, TypeOf(spec.1).value).value, spec.0, spec.1, path, fetchJson, geojsonInitOk).1
  }

  /** The `maxzoom || 24` of such an entry, read after its `init`. */
  function LevelOf(spec: (string, map<string, Value>), table: map<string, SourceClass>, path: string,
                   fetchJson: string -> Option<map<string, Value>>, geojsonInitOk: string -> bool): real
    requires InitOk(spec, table, path, fetchJson, geojsonInitOk)
  {
    MaxZoomOf(InitSource(LookupSource(table, TypeOf(spec.1).value).value, spec.0, spec.1, path, fetchJson, geojsonInitOk).0)
  }

  /** The source loop of `init`, in document order: a source whose type is
      registered is kept whether or not its `init` throws; only a successful
      `init` lowers the level cap to its `maxzoom`, read after the metadata
      merge. The cap ends as the minimum of its starting value and the
      `maxzoom` of every source whose `init` succeeded. */
  function InstantiateSources(specs: seq<(string, map<string, Value>)>, table: map<string, SourceClass>, path: string,
                              fetchJson: string -> Option<map<string, Value>>, geojsonInitOk: string -> bool,
                              sources: map<string, Source>, maxLevel: real): (r: (map<string, Source>, real))
    ensures r.1 <= maxLevel
    ensures forall i | 0 <= i < |specs| && InitOk(specs[i], table, path, fetchJson, geojsonInitOk) ::
              r.1 <= LevelOf(specs[i], table, path, fetchJson, geojsonInitOk)
    ensures r.1 == maxLevel ||
            exists i | 0 <= i < |specs| && InitOk(specs[i], table, path, fetchJson, geojsonInitOk) ::
              r.1 == LevelOf(specs[i], table, path, fetchJson, geojsonInitOk)
    decreases |specs|
  {
    if |specs| == 0 then (sources, maxLevel)
    else
      var id := specs[0].0;
      var params := specs[0].1;
      var ty := TypeOf(params);
      if ty.None? || LookupSource(table, ty.value).None? then
        var r := InstantiateSources(specs[1..], table, path, fetchJson, geojsonInitOk, sources, maxLevel);
        LevelStep(specs, table, path, fetchJson, geojsonInitOk, maxLevel, maxLevel, r.1);
        r
      else
        var cls := LookupSource(table, ty.value).value;
        var init := InitSource(cls, id, params, path, fetchJson, geojsonInitOk);
        var level := if init.1 then Min(MaxZoomOf(init.0), maxLevel) else maxLevel;
        var r := InstantiateSources(specs[1..], table, path, fetchJson, geojsonInitOk, sources[id := Source(cls, ty.value, init.0)], level);
        LevelStep(specs, table, path, fetchJson, geojsonInitOk, maxLevel, level, r.1);
        r
  }

  /** The cap facts of the loop over `specs[1..]`, started from the cap the
      first entry leaves, give those of the loop over `specs`. */
  lemma LevelStep(specs: seq<(string, map<string, Value>)>, table: map<string, SourceClass>, path: string,
                  fetchJson: string -> Option<map<string, Value>>, geojsonInitOk: string -> bool,
                  maxLevel: real, level: real, x: real)
    requires |specs| > 0
    requires level == if InitOk(specs[0], table, path, fetchJson, geojsonInitOk)
                      then Min(LevelOf(specs[0], table, path, fetchJson, geojsonInitOk), maxLevel) else maxLevel
    requires x <= level
    requires forall i | 0 <= i < |specs[1..]| && InitOk(specs[1..][i], table, path, fetchJson, geojsonInitOk) ::
               x <= LevelOf(specs[1..][i], table, path, fetchJson, geojsonInitOk)
    requires x == level ||
             exists i | 0 <= i < |specs[1..]| && InitOk(specs[1..][i], table, path, fetchJson, geojsonInitOk) ::
               x == LevelOf(specs[1..][i], table, path, fetchJson, geojsonInitOk)
    ensures x <= maxLevel
    ensures forall i | 0 <= i < |specs| && InitOk(specs[i], table, path, fetchJson, geojsonInitOk) ::
              x <= LevelOf(specs[i], table, path, fetchJson, geojsonInitOk)
    ensures x == maxLevel ||
            exists i | 0 <= i < |specs| && InitOk(specs[i], table, path, fetchJson, geojsonInitOk) ::
              x == LevelOf(specs[i], table, path, fetchJson, geojsonInitOk)
  {
    var rest := specs[1..];
    forall i | 0 <= i < |specs| && InitOk(specs[i], table, path, fetchJson, geojsonInitOk)
      ensures x <= LevelOf(specs[i], table, path, fetchJson, geojsonInitOk)
    {
      if i > 0 { assert specs[i] == rest[i - 1]; }
    }
    if x != maxLevel {
      if x == level {
        assert InitOk(specs[0], table, path, fetchJson, geojsonInitOk) && x == LevelOf(specs[0], table, path, fetchJson, geojsonInitOk);
      } else {
        var i :| 0 <= i < |rest| && InitOk(rest[i], table, path, fetchJson, geojsonInitOk) &&
                 x == LevelOf(rest[i], table, path, fetchJson, geojsonInitOk);
        assert specs[i + 1] == rest[i];
      }
    }
  }

  /** The ids a style document's source list registers: those whose `type`
      names a registered source class. */
  function RegisteredIds(specs: seq<(string, map<string, Value>)>, table: map<string, SourceClass>): set<string> {
    set i | 0 <= i < |specs| && TypeOf(specs[i].1).Some? && LookupSource(table, TypeOf(specs[i].1).value).Some? :: specs[i].0
  }

  /** After the loop the tileset holds exactly the old sources and the
      registered ones, and every source not carried over has the class its
      `type` is registered under. */
  lemma {:induction false} InstantiateSourcesKeys(specs: seq<(string, map<string, Value>)>, table: map<string, SourceClass>, path: string,
                                                  fetchJson: string -> Option<map<string, Value>>, geojsonInitOk: string -> bool,
                                                  sources: map<string, Source>, maxLevel: real)
    ensures var r := InstantiateSources(specs, table, path, fetchJson, geojsonInitOk, sources, maxLevel);
            r.0.Keys == sources.Keys + RegisteredIds(specs, table) &&
            forall id | id in r.0 :: (id in sources && r.0[id] == sources[id]) || LookupSource(table, r.0[id].sourceType) == Some(r.0[id].cls)
    decreases |specs|
  {
    if |specs| > 0 {
      var id := specs[0].0;
      var params := specs[0].1;
      var rest := specs[1..];
      var ty := TypeOf(params);
      RegisteredIdsStep(specs, table);
      if ty.None? || LookupSource(table, ty.value).None? {
        InstantiateSourcesKeys(rest, table, path, fetchJson, geojsonInitOk, sources, maxLevel);
        assert InstantiateSources(specs, table, path, fetchJson, geojsonInitOk, sources, maxLevel) ==
               InstantiateSources(rest, table, path, fetchJson, geojsonInitOk, sources, maxLevel);
      } else {
        var cls := LookupSource(table, ty.value).value;
        var init := InitSource(cls, id, params, path, fetchJson, geojsonInitOk);
        var level := if init.1 then Min(MaxZoomOf(init.0), maxLevel) else maxLevel;
        var sources' := sources[id := Source(cls, ty.value, init.0)];
        InstantiateSourcesKeys(rest, table, path, fetchJson, geojsonInitOk, sources', level);
        assert InstantiateSources(specs, table, path, fetchJson, geojsonInitOk, sources, maxLevel) ==
               InstantiateSources(rest, table, path, fetchJson, geojsonInitOk, sources', level);
        KeysFromRest(InstantiateSources(rest, table, path, fetchJson, geojsonInitOk, sources', level).0,
                     sources, id, Source(cls, ty.value, init.0), RegisteredIds(rest, table), RegisteredIds(specs, table), table);
      }
    }
  }

  lemma KeysFromRest(r0: map<string, Source>, sources: map<string, Source>, id: string, src: Source,
                     restIds: set<string>, ids: set<string>, table: map<string, SourceClass>)
    requires LookupSource(table, src.sourceType) == Some(src.cls) && ids == restIds + {id}
    requires r0.Keys == sources[id := src].Keys + restIds
    requires forall k | k in r0 :: (k in sources[id := src] && r0[k] == sources[id := src][k]) ||
                                   LookupSource(table, r0[k].sourceType) == Some(r0[k].cls)
    ensures r0.Keys == sources.Keys + ids
    ensures forall k | k in r0 :: (k in sources && r0[k] == sources[k]) || LookupSource(table, r0[k].sourceType) == Some(r0[k].cls)
  {
    assert sources[id := src].Keys == sources.Keys + {id};
  }

  lemma RegisteredIdsStep(specs: seq<(string, map<string, Value>)>, table: map<string, SourceClass>)
    requires |specs| > 0
    ensures var ty := TypeOf(specs[0].1);
            RegisteredIds(specs, table) ==
              RegisteredIds(specs[1..], table) + (if ty.Some? && LookupSource(table, ty.value).Some? then {specs[0].0} else {})
  {
    var id := specs[0].0;
    var rest := specs[1..];
    var ty := TypeOf(specs[0].1);
    assert forall i | 1 <= i < |specs| :: specs[i] == rest[i - 1];
    forall x | x in RegisteredIds(specs, table)
      ensures x in RegisteredIds(rest, table) + (if ty.Some? && LookupSource(table, ty.value).Some? then {id} else {})
    {
      var i :| 0 <= i < |specs| && TypeOf(specs[i].1).Some? && LookupSource(table, TypeOf(specs[i].1).value).Some? && specs[i].0 == x;
      if i > 0 { assert rest[i - 1] == specs[i]; }
    }
    forall x | x in RegisteredIds(rest, table) ensures x in RegisteredIds(specs, table) {
      var i :| 0 <= i < |rest| && TypeOf(rest[i].1).Some? && LookupSource(table, TypeOf(rest[i].1).value).Some? && rest[i].0 == x;
      assert specs[i + 1] == rest[i];
    }
  }

  /** A vector source given only by a TileJSON URL takes its level cap from
      the metadata's `maxzoom`. */
  lemma MaxzoomFromMetadata(id: string, params: map<string, Value>, path: string,
                            fetchJson: string -> Option<map<string, Value>>, geojsonInitOk: string -> bool, zoom: real)
    requires VectorSource.WantsMetadata(params) && !TruthyField(params, "maxzoom")
    requires var u := VectorSource.ResolveUrl(path, VectorSource.UrlOf(params).value);
             fetchJson(u).Some? && "maxzoom" in fetchJson(u).value && fetchJson(u).value["maxzoom"] == Num(zoom) && zoom != 0.0
    ensures MaxZoomOf(InitSource(VectorSourceClass, id, params, path, fetchJson, geojsonInitOk).0) == zoom
  {
  }

  // ---------------------------------------------------------------------
  // The tileset record and `init`.

  /** A fetch pass in flight: the tile and the source ids it requests. */
  datatype Fetch = Fetch(key: nat, ids: seq<string>)

  /** A `VectorTileset`. The caps `maxLoading` and `maxInitializing` are read
      but never assigned by the tileset, so they are given from outside. */
  datatype Tileset = Tileset(
    ready: bool,
    show: bool,
    maximumLevel: real,
    sources: map<string, Source>,
    styleLayers: seq<StyleLayer>,
    roots: seq<nat>,
    cache: seq<nat>,
    tilesToRender: seq<nat>,
    tree: Tree,
    renderList: RenderList.RenderList,
    numLoading: int,
    numInitializing: int,
    maxLoading: Option<int>,
    maxInitializing: Option<int>,
    inflight: seq<Fetch>)

  /** `new VectorTileset(options)`. */
  function NewTileset(maxLoading: Option<int>, maxInitializing: Option<int>): (ts: Tileset)
    ensures !ts.ready && ts.show && ts.maximumLevel == 24.0
    ensures ts.roots == [] && ts.cache == [] && ts.tilesToRender == [] && ts.inflight == []
    ensures ts.numLoading == 0 && ts.numInitializing == 0
    ensures Inv(ts) && Hierarchy(ts)
  {
    Tileset(false, true, 24.0, map[], [], [], [], [], Tree(map[], 0), RenderList.NewRenderList([]),
            0, 0, maxLoading, maxInitializing, [])
  }

  /** Level-zero tiles of the Web Mercator tiling scheme with its default
      settings: one by one. */
  const LevelZeroTilesX: nat := 1
  const LevelZeroTilesY: nat := 1

  /** A root tile at column `x`, row `y`: level 0, no parent, four children. */
  predicate RootAt(tree: Tree, key: nat, x: nat, y: nat) {
    key in tree.tiles && tree.tiles[key].z == 0 && tree.tiles[key].parent.None? && |tree.tiles[key].children| == 4 &&
    tree.tiles[key].x == x && tree.tiles[key].y == y
  }

  /** One root: `new VectorTileLOD({x, y, z: 0})` followed by `createChildren()`. */
  function CreateRoot(tree: Tree, x: nat, y: nat): (r: (Tree, nat))
    requires KeysBelow(tree)
    ensures r.1 == tree.nextKey && r.0.nextKey == tree.nextKey + 5
  {
    var key := tree.nextKey;
    var t1 := AddTile(tree, x, y, 0, None);
    assert KeysBelow(t1);
    (CreateChildren(t1, key), key)
  }

  /** The new root sits at its address with its four children, and the arena
      stays well formed. */
  lemma CreateRootArena(tree: Tree, x: nat, y: nat)
    requires ArenaOk(tree)
    ensures KeysBelow(tree)
    ensures var r := CreateRoot(tree, x, y); ArenaOk(r.0) && RootAt(r.0, r.1, x, y)
  {
    AddTileKeepsArena(tree, x, y, 0, None);
    CreateChildrenKeepsArena(AddTile(tree, x, y, 0, None), tree.nextKey);
  }

  /** Creating a root leaves the existing tiles alone. */
  lemma CreateRootKeepsTiles(tree: Tree, x: nat, y: nat)
    requires KeysBelow(tree)
    ensures var r := CreateRoot(tree, x, y);
            forall k | k in tree.tiles :: k in r.0.tiles && r.0.tiles[k] == tree.tiles[k]
  {
  }

  /** The tiles a root brings are empty. */
  lemma CreateRootAddsEmpty(tree: Tree, x: nat, y: nat)
    requires KeysBelow(tree)
    ensures var r := CreateRoot(tree, x, y);
            forall k | k in r.0.tiles && k !in tree.tiles :: r.0.tiles[k].layers == [] && r.0.tiles[k].visualizers == []
  {
    var key := tree.nextKey;
    var t2 := CreateChildren(AddTile(tree, x, y, 0, None), key);
    assert forall k | k in t2.tiles && k !in tree.tiles :: key <= k <= key + 4;
  }

  /** The level-zero tile addresses in the order `init` creates them: row by
      row, column by column. */
  function RootPositions(numX: nat, numY: nat): (r: seq<(nat, nat)>)
    ensures |r| == numX * numY
    ensures forall i | 0 <= i < |r| :: numX > 0 && r[i] == (i % numX, i / numX)
  {
    if numX == 0 then []
    else seq(numX * numY, i requires 0 <= i < numX * numY => (i % numX, i / numX))
  }

  /** One root per address, in order. */
  function CreateRoots(tree: Tree, positions: seq<(nat, nat)>): (r: (Tree, seq<nat>))
    requires KeysBelow(tree)
    ensures KeysBelow(r.0) && r.0.nextKey >= tree.nextKey
    ensures |r.1| == |positions|
    decreases |positions|
  {
    if |positions| == 0 then (tree, [])
    else
      var first := CreateRoot(tree, positions[0].0, positions[0].1);
      CreateRootKeepsKeysBelow(tree, positions[0].0, positions[0].1);
      var rest := CreateRoots(first.0, positions[1..]);
      (rest.0, [first.1] + rest.1)
  }

  lemma CreateRootKeepsKeysBelow(tree: Tree, x: nat, y: nat)
    requires KeysBelow(tree)
    ensures KeysBelow(CreateRoot(tree, x, y).0)
  {
    var t1 := AddTile(tree, x, y, 0, None);
    assert KeysBelow(t1);
  }

  /** Creating roots keeps the arena well formed. */
  lemma {:induction false} CreateRootsArena(tree: Tree, positions: seq<(nat, nat)>)
    requires ArenaOk(tree)
    ensures KeysBelow(tree) && ArenaOk(CreateRoots(tree, positions).0)
    decreases |positions|
  {
    if |positions| > 0 {
      CreateRootArena(tree, positions[0].0, positions[0].1);
      CreateRootsArena(CreateRoot(tree, positions[0].0, positions[0].1).0, positions[1..]);
    }
  }

  /** Root `j` sits at address `j`, with four children. */
  lemma {:induction false} CreateRootsPlaced(tree: Tree, positions: seq<(nat, nat)>, j: nat)
    requires KeysBelow(tree) && j < |positions|
    ensures var r := CreateRoots(tree, positions);
            RootAt(r.0, r.1[j], positions[j].0, positions[j].1)
    decreases |positions|, 1
  {
    if j == 0 {
      CreateRootsPlacedHead(tree, positions);
    } else {
      CreateRootsPlacedStep(tree, positions, j);
    }
  }

  /** Root `j > 0` is root `j - 1` of the roots after the first. */
  lemma {:induction false} CreateRootsPlacedStep(tree: Tree, positions: seq<(nat, nat)>, j: nat)
    requires KeysBelow(tree) && 0 < j < |positions|
    ensures var r := CreateRoots(tree, positions);
            RootAt(r.0, r.1[j], positions[j].0, positions[j].1)
    decreases |positions|, 0
  {
    CreateRootKeepsKeysBelow(tree, positions[0].0, positions[0].1);
    var t1 := CreateRoot(tree, positions[0].0, positions[0].1).0;
    CreateRootsPlaced(t1, positions[1..], j - 1);
    CreateRootsUnfold(tree, positions);
    PlacedStep(CreateRoots(tree, positions), CreateRoots(t1, positions[1..]), positions, j);
  }

  lemma PlacedStep(r: (Tree, seq<nat>), r1: (Tree, seq<nat>), positions: seq<(nat, nat)>, j: nat)
    requires 0 < j < |positions| && j < |r.1| && j - 1 < |r1.1|
    requires r.0 == r1.0 && r.1[j] == r1.1[j - 1]
    requires RootAt(r1.0, r1.1[j - 1], positions[1..][j - 1].0, positions[1..][j - 1].1)
    ensures RootAt(r.0, r.1[j], positions[j].0, positions[j].1)
  {
    assert positions[1..][j - 1] == positions[j];
  }

  lemma CreateRootsPlacedHead(tree: Tree, positions: seq<(nat, nat)>)
    requires KeysBelow(tree) && 0 < |positions|
    ensures var r := CreateRoots(tree, positions);
            RootAt(r.0, r.1[0], positions[0].0, positions[0].1)
  {
    CreateRootKeepsKeysBelow(tree, positions[0].0, positions[0].1);
    var t1 := CreateRoot(tree, positions[0].0, positions[0].1).0;
    CreateRootsUnfold(tree, positions);
    CreateRootPlaced(tree, positions[0].0, positions[0].1);
    CreateRootsKeepTiles(t1, positions[1..]);
    RootAtKept(t1, CreateRoots(t1, positions[1..]).0, tree.nextKey, positions[0].0, positions[0].1);
  }

  lemma CreateRootsUnfold(tree: Tree, positions: seq<(nat, nat)>)
    requires KeysBelow(tree) && |positions| > 0
    ensures KeysBelow(CreateRoot(tree, positions[0].0, positions[0].1).0)
    ensures var t1 := CreateRoot(tree, positions[0].0, positions[0].1).0;
            var r := CreateRoots(tree, positions);
            r.0 == CreateRoots(t1, positions[1..]).0 && r.1[0] == tree.nextKey &&
            forall j | 0 < j < |positions| :: r.1[j] == CreateRoots(t1, positions[1..]).1[j - 1]
  {
    CreateRootsCons(tree, positions);
    var first := CreateRoot(tree, positions[0].0, positions[0].1);
    var rest := CreateRoots(first.0, positions[1..]);
    var r := CreateRoots(tree, positions);
    forall j | 0 < j < |positions| ensures r.1[j] == rest.1[j - 1] {
    }
  }

  lemma CreateRootsCons(tree: Tree, positions: seq<(nat, nat)>)
    requires KeysBelow(tree) && |positions| > 0
    ensures KeysBelow(CreateRoot(tree, positions[0].0, positions[0].1).0)
    ensures var first := CreateRoot(tree, positions[0].0, positions[0].1);
            CreateRoots(tree, positions) == (CreateRoots(first.0, positions[1..]).0, [first.1] + CreateRoots(first.0, positions[1..]).1)
  {
    CreateRootKeepsKeysBelow(tree, positions[0].0, positions[0].1);
  }

  lemma CreateRootPlaced(tree: Tree, x: nat, y: nat)
    requires KeysBelow(tree)
    ensures RootAt(CreateRoot(tree, x, y).0, tree.nextKey, x, y)
  {
    assert KeysBelow(AddTile(tree, x, y, 0, None));
  }

  lemma RootAtKept(t1: Tree, t2: Tree, key: nat, x: nat, y: nat)
    requires RootAt(t1, key, x, y)
    requires forall k | k in t1.tiles :: k in t2.tiles && t2.tiles[k] == t1.tiles[k]
    ensures RootAt(t2, key, x, y)
  {
  }

  /** A tile whose key and children's keys were all handed out at or after `bound`. */
  predicate FreshFrom(tree: Tree, key: nat, bound: nat)
    requires key in tree.tiles
  {
    key >= bound && forall c | c in tree.tiles[key].children :: c >= bound
  }

  lemma FreshFromLower(tree: Tree, key: nat, b1: nat, b2: nat)
    requires key in tree.tiles && FreshFrom(tree, key, b1) && b2 <= b1
    ensures FreshFrom(tree, key, b2)
  {
  }

  lemma CreateRootFresh(tree: Tree, x: nat, y: nat)
    requires KeysBelow(tree)
    ensures var t1 := CreateRoot(tree, x, y).0;
            tree.nextKey in t1.tiles && FreshFrom(t1, tree.nextKey, tree.nextKey)
  {
    var t0 := AddTile(tree, x, y, 0, None);
    assert KeysBelow(t0);
  }

  /** The roots `init` creates, and their children, are new tiles. */
  lemma {:induction false} CreateRootsFresh(tree: Tree, positions: seq<(nat, nat)>, j: nat)
    requires KeysBelow(tree) && j < |positions|
    ensures var r := CreateRoots(tree, positions);
            r.1[j] in r.0.tiles && FreshFrom(r.0, r.1[j], tree.nextKey)
    decreases |positions|
  {
    if j == 0 {
      CreateRootsFreshHead(tree, positions);
    } else {
      CreateRootKeepsKeysBelow(tree, positions[0].0, positions[0].1);
      var t1 := CreateRoot(tree, positions[0].0, positions[0].1).0;
      CreateRootsUnfold(tree, positions);
      CreateRootsFresh(t1, positions[1..], j - 1);
      var r := CreateRoots(t1, positions[1..]);
      FreshFromLower(r.0, r.1[j - 1], t1.nextKey, tree.nextKey);
    }
  }

  lemma CreateRootsFreshHead(tree: Tree, positions: seq<(nat, nat)>)
    requires KeysBelow(tree) && 0 < |positions|
    ensures var r := CreateRoots(tree, positions);
            r.1[0] in r.0.tiles && FreshFrom(r.0, r.1[0], tree.nextKey)
  {
    CreateRootKeepsKeysBelow(tree, positions[0].0, positions[0].1);
    var t1 := CreateRoot(tree, positions[0].0, positions[0].1).0;
    CreateRootsUnfold(tree, positions);
    CreateRootFresh(tree, positions[0].0, positions[0].1);
    CreateRootsKeepTiles(t1, positions[1..]);
    assert CreateRoots(t1, positions[1..]).0.tiles[tree.nextKey] == t1.tiles[tree.nextKey];
  }

  /** Creating roots leaves the existing tiles alone and adds only empty ones. */
  lemma {:induction false} CreateRootsKeepTiles(tree: Tree, positions: seq<(nat, nat)>)
    requires KeysBelow(tree)
    ensures var r := CreateRoots(tree, positions);
            (forall k | k in tree.tiles :: k in r.0.tiles && r.0.tiles[k] == tree.tiles[k]) &&
            (forall k | k in r.0.tiles && k !in tree.tiles :: r.0.tiles[k].layers == [] && r.0.tiles[k].visualizers == [])
    decreases |positions|
  {
    if |positions| > 0 {
      CreateRootKeepsTiles(tree, positions[0].0, positions[0].1);
      CreateRootAddsEmpty(tree, positions[0].0, positions[0].1);
      CreateRootKeepsKeysBelow(tree, positions[0].0, positions[0].1);
      CreateRootsKeepTiles(CreateRoot(tree, positions[0].0, positions[0].1).0, positions[1..]);
    }
  }

  /** The style document as far as `init` reads it: its sources in document
      order and its layers. */
  datatype StyleDoc = StyleDoc(sources: seq<(string, map<string, Value>)>, layers: seq<LayerSpec>)

  /** Outside effects `init` depends on. */
  datatype InitEnv = InitEnv(
    sourceTable: map<string, SourceClass>,
    reference: Reference,
    path: string,
    fetchJson: string -> Option<map<string, Value>>,
    geojsonInitOk: string -> bool)

  /** The style layers `init` builds, one per layer of the document, in order. */
  function StyleLayersOf(specs: seq<LayerSpec>, reference: Reference): (r: seq<StyleLayer>)
    ensures |r| == |specs|
    ensures forall i | 0 <= i < |r| :: r[i] == NewStyleLayer(specs[i], reference)
  {
    seq(|specs|, i requires 0 <= i < |specs| => NewStyleLayer(specs[i], reference))
  }

  /** The ids of a list of style layers, in order. */
  function IdsOf(layers: seq<StyleLayer>): (r: seq<string>)
    ensures |r| == |layers| && forall i | 0 <= i < |r| :: r[i] == layers[i].id
  {
    seq(|layers|, i requires 0 <= i < |layers| => layers[i].id)
  }

  /** Writing `written[i]` into `prev[i]` for each index of `written`, as the
      loops `a[i] = ...` and `a[i++] = ...` do on an existing array `prev`:
      entries past the end of `written` are kept. */
  function Overwrite<T>(prev: seq<T>, written: seq<T>): (r: seq<T>)
    ensures |r| == if |prev| <= |written| then |written| else |prev|
    ensures r[..|written|] == written
    ensures forall i | |written| <= i < |r| :: r[i] == prev[i]
  {
    if |prev| <= |written| then written else written + prev[|written|..]
  }

  /** `init()`: without a style nothing happens (an error is raised);
      otherwise the sources are rebuilt from an empty map, the style layers
      and root tiles are written from index 0 on, the render list is set up
      and the tileset is ready. */
  function Init(ts: Tileset, style: Option<StyleDoc>, env: InitEnv): (r: Tileset)
    requires KeysBelow(ts.tree)
    ensures style.None? ==> r == ts
    ensures style.Some? ==>
              r.ready && |r.roots| >= LevelZeroTilesX * LevelZeroTilesY &&
              r.maximumLevel <= ts.maximumLevel &&
              r.sources.Keys == RegisteredIds(style.value.sources, env.sourceTable) &&
              |r.styleLayers| >= |style.value.layers| &&
              r.styleLayers[..|style.value.layers|] == StyleLayersOf(style.value.layers, env.reference) &&
              r.cache == ts.cache && r.tilesToRender == ts.tilesToRender && r.inflight == ts.inflight
  {
    match style
    case None => ts
    case Some(doc) =>
      var sources := InstantiateSources(doc.sources, env.sourceTable, env.path, env.fetchJson, env.geojsonInitOk,
                                        map[], ts.maximumLevel);
      InstantiateSourcesKeys(doc.sources, env.sourceTable, env.path, env.fetchJson, env.geojsonInitOk, map[], ts.maximumLevel);
      var styleLayers := Overwrite(ts.styleLayers, StyleLayersOf(doc.layers, env.reference));
      var created := CreateRoots(ts.tree, RootPositions(LevelZeroTilesX, LevelZeroTilesY));
      var list := RenderList.Init(RenderList.NewRenderList(IdsOf(styleLayers))).value;
      ts.(sources := sources.0, maximumLevel := sources.1, styleLayers := styleLayers, tree := created.0,
          roots := Overwrite(ts.roots, created.1), renderList := list, ready := true)
  }

  /** `init` keeps the tileset invariant: the old tiles are untouched, the new
      roots sit at level 0 with four children, and none of those children is
      in the cache. */
  lemma InitKeepsInv(ts: Tileset, style: Option<StyleDoc>, env: InitEnv)
    requires Inv(ts)
    ensures Inv(Init(ts, style, env))
  {
    if style.Some? {
      var r := Init(ts, style, env);
      var positions := RootPositions(LevelZeroTilesX, LevelZeroTilesY);
      var created := CreateRoots(ts.tree, positions);
      assert r.tree == created.0 && r.roots == Overwrite(ts.roots, created.1);
      CreateRootsArena(ts.tree, positions);
      CreateRootsKeepTiles(ts.tree, positions);
      forall i | 0 <= i < |created.1|
        ensures RootAt(created.0, created.1[i], positions[i].0, positions[i].1)
        ensures FreshFrom(created.0, created.1[i], ts.tree.nextKey)
      {
        CreateRootsPlaced(ts.tree, positions, i);
        CreateRootsFresh(ts.tree, positions, i);
      }
      AddRootsKeepsInv(ts, r, created.1);
    }
  }

  /** Adding fresh, empty root tiles keeps the invariant. */
  lemma AddRootsKeepsInv(ts: Tileset, r: Tileset, newRoots: seq<nat>)
    requires Inv(ts) && ArenaOk(r.tree)
    requires forall k | k in ts.tree.tiles :: k in r.tree.tiles && r.tree.tiles[k] == ts.tree.tiles[k]
    requires forall k | k in r.tree.tiles && k !in ts.tree.tiles :: r.tree.tiles[k].layers == [] && r.tree.tiles[k].visualizers == []
    requires forall i | 0 <= i < |newRoots| ::
               newRoots[i] in r.tree.tiles && r.tree.tiles[newRoots[i]].z == 0 && |r.tree.tiles[newRoots[i]].children| == 4 &&
               FreshFrom(r.tree, newRoots[i], ts.tree.nextKey)
    requires r.roots == Overwrite(ts.roots, newRoots) && (r.ready ==> |r.roots| > 0)
    requires r.cache == ts.cache && r.tilesToRender == ts.tilesToRender && r.inflight == ts.inflight && r.numLoading == ts.numLoading
    ensures Inv(r)
  {
    AddRootsTiles(ts, r);
    AddRootsPlaced(ts, r, newRoots);
    AddRootsNoChildCached(ts, r, newRoots);
  }

  lemma AddRootsTiles(ts: Tileset, r: Tileset)
    requires InvTiles(ts) && ArenaOk(r.tree)
    requires forall k | k in ts.tree.tiles :: k in r.tree.tiles && r.tree.tiles[k] == ts.tree.tiles[k]
    requires forall k | k in r.tree.tiles && k !in ts.tree.tiles :: r.tree.tiles[k].layers == [] && r.tree.tiles[k].visualizers == []
    ensures InvTiles(r)
  {
    forall k | k in r.tree.tiles ensures TileOk(r.tree.tiles[k]) {
      if k in ts.tree.tiles { assert r.tree.tiles[k] == ts.tree.tiles[k]; }
    }
  }

  lemma AddRootsPlaced(ts: Tileset, r: Tileset, newRoots: seq<nat>)
    requires forall i | 0 <= i < |ts.roots| ::
               ts.roots[i] in ts.tree.tiles && ts.tree.tiles[ts.roots[i]].z == 0 && |ts.tree.tiles[ts.roots[i]].children| == 4
    requires forall k | k in ts.tree.tiles :: k in r.tree.tiles && r.tree.tiles[k] == ts.tree.tiles[k]
    requires forall i | 0 <= i < |newRoots| ::
               newRoots[i] in r.tree.tiles && r.tree.tiles[newRoots[i]].z == 0 && |r.tree.tiles[newRoots[i]].children| == 4
    requires r.roots == Overwrite(ts.roots, newRoots)
    ensures forall i | 0 <= i < |r.roots| ::
              r.roots[i] in r.tree.tiles && r.tree.tiles[r.roots[i]].z == 0 && |r.tree.tiles[r.roots[i]].children| == 4
  {
    forall i | 0 <= i < |r.roots|
      ensures r.roots[i] in r.tree.tiles && r.tree.tiles[r.roots[i]].z == 0 && |r.tree.tiles[r.roots[i]].children| == 4
    {
      if i < |newRoots| { assert r.roots[i] == r.roots[..|newRoots|][i] == newRoots[i]; } else { assert r.roots[i] == ts.roots[i]; }
    }
  }

  lemma AddRootsNoChildCached(ts: Tileset, r: Tileset, newRoots: seq<nat>)
    requires Inv(ts)
    requires forall k | k in ts.tree.tiles :: k in r.tree.tiles && r.tree.tiles[k] == ts.tree.tiles[k]
    requires forall i | 0 <= i < |newRoots| ::
               newRoots[i] in r.tree.tiles && FreshFrom(r.tree, newRoots[i], ts.tree.nextKey)
    requires r.roots == Overwrite(ts.roots, newRoots) && r.cache == ts.cache
    requires forall i | 0 <= i < |r.roots| :: r.roots[i] in r.tree.tiles
    ensures NoRootChildCached(r)
  {
    forall i, j | 0 <= i < |r.roots| && 0 <= j < |r.cache| ensures r.cache[j] !in r.tree.tiles[r.roots[i]].children {
      if i < |newRoots| {
        assert r.roots[i] == r.roots[..|newRoots|][i] == newRoots[i];
        assert r.cache[j] in ts.tree.tiles;
        assert NodeOk(ts.tree, r.cache[j]);
      } else {
        assert r.roots[i] == ts.roots[i];
        assert r.tree.tiles[r.roots[i]] == ts.tree.tiles[ts.roots[i]];
      }
    }
  }

  // ---------------------------------------------------------------------
  // Invariant.

  /** The per-tile facts every update relies on. */
  predicate TileOk(t: Tile) {
    VisualizersOk(t.layers, t.visualizers) && LayersLive(t.layers)
  }

  predicate InvTiles(ts: Tileset) {
    ArenaOk(ts.tree) && forall k | k in ts.tree.tiles :: TileOk(ts.tree.tiles[k])
  }

  predicate Inv(ts: Tileset) {
    InvTiles(ts) &&
    (forall i | 0 <= i < |ts.roots| ::
       ts.roots[i] in ts.tree.tiles && ts.tree.tiles[ts.roots[i]].z == 0 && |ts.tree.tiles[ts.roots[i]].children| == 4) &&
    (forall i | 0 <= i < |ts.cache| :: ts.cache[i] in ts.tree.tiles) &&
    (forall i | 0 <= i < |ts.tilesToRender| :: ts.tilesToRender[i] in ts.tree.tiles) &&
    (forall i | 0 <= i < |ts.inflight| :: ts.inflight[i].key in ts.tree.tiles) &&
    ts.numLoading == |ts.inflight| &&
    (ts.ready ==> |ts.roots| > 0) &&
    NoRootChildCached(ts)
  }

  /** The children a root gets in `init` are never added to the cache, so the
      eviction sweep never unloads them. */
  predicate NoRootChildCached(ts: Tileset)
    requires forall i | 0 <= i < |ts.roots| :: ts.roots[i] in ts.tree.tiles
  {
    forall i, j | 0 <= i < |ts.roots| && 0 <= j < |ts.cache| :: ts.cache[j] !in ts.tree.tiles[ts.roots[i]].children
  }

  // ---------------------------------------------------------------------
  // The tile hierarchy.

  /** The tiles form a forest under distinct roots, and no tile is listed to
      render twice. */
  predicate Hierarchy(ts: Tileset) {
    Forest(ts.tree) && Distinct(ts.roots) && Distinct(ts.tilesToRender)
  }

  /** A root with its four new children keeps the tree a forest. */
  lemma CreateRootForest(tree: Tree, x: nat, y: nat)
    requires ArenaOk(tree) && Forest(tree)
    ensures KeysBelow(tree) && Forest(CreateRoot(tree, x, y).0)
  {
    AddTileKeepsArena(tree, x, y, 0, None);
    AddTileForest(tree, x, y, 0, None);
    CreateChildrenForest(AddTile(tree, x, y, 0, None), tree.nextKey);
  }

  lemma {:induction false} CreateRootsForest(tree: Tree, positions: seq<(nat, nat)>)
    requires ArenaOk(tree) && Forest(tree)
    ensures KeysBelow(tree) && Forest(CreateRoots(tree, positions).0)
    decreases |positions|
  {
    if |positions| > 0 {
      CreateRootArena(tree, positions[0].0, positions[0].1);
      CreateRootForest(tree, positions[0].0, positions[0].1);
      CreateRootsForest(CreateRoot(tree, positions[0].0, positions[0].1).0, positions[1..]);
    }
  }

  /** The new roots are distinct keys, none of them in use before. */
  lemma {:induction false} CreateRootsDistinct(tree: Tree, positions: seq<(nat, nat)>)
    requires KeysBelow(tree)
    ensures var r := CreateRoots(tree, positions).1;
            Distinct(r) && forall x | x in r :: x >= tree.nextKey
    decreases |positions|
  {
    if |positions| > 0 {
      CreateRootsCons(tree, positions);
      var first := CreateRoot(tree, positions[0].0, positions[0].1);
      CreateRootsDistinct(first.0, positions[1..]);
      FreshCons(first.1, CreateRoots(first.0, positions[1..]).1, CreateRoots(tree, positions).1, tree.nextKey);
    }
  }

  /** A fresh key in front of later ones. */
  lemma FreshCons(h: nat, rest: seq<nat>, r: seq<nat>, bound: nat)
    requires r == [h] + rest && Distinct(rest) && bound <= h && forall x | x in rest :: x > h
    ensures Distinct(r) && forall x | x in r :: x >= bound
  {
    DistinctAppend([h], rest);
  }

  /** `init` keeps the hierarchy: the new roots are fresh and distinct, and
      the old roots it keeps were distinct already. */
  lemma InitKeepsHierarchy(ts: Tileset, style: Option<StyleDoc>, env: InitEnv)
    requires Inv(ts) && Hierarchy(ts)
    ensures Hierarchy(Init(ts, style, env))
  {
    if style.Some? {
      var r := Init(ts, style, env);
      var positions := RootPositions(LevelZeroTilesX, LevelZeroTilesY);
      var created := CreateRoots(ts.tree, positions);
      assert r.tree == created.0 && r.roots == Overwrite(ts.roots, created.1);
      CreateRootsForest(ts.tree, positions);
      CreateRootsDistinct(ts.tree, positions);
      forall x | x in ts.roots ensures x < ts.tree.nextKey {
        assert NodeOk(ts.tree, x);
      }
      OverwriteDistinct(ts.roots, created.1, ts.tree.nextKey);
    }
  }

  /** Fresh keys over old ones: no key twice. */
  lemma OverwriteDistinct(prev: seq<nat>, written: seq<nat>, bound: nat)
    requires Distinct(prev) && Distinct(written)
    requires (forall x | x in prev :: x < bound) && forall x | x in written :: x >= bound
    ensures Distinct(Overwrite(prev, written))
  {
    if |prev| > |written| {
      DistinctDrop(prev, |written|);
      var kept := prev[|written|..];
      forall x | x in kept ensures x < bound {
        var i :| 0 <= i < |kept| && kept[i] == x;
        assert kept[i] == prev[|written| + i];
        assert x in prev;
      }
      DistinctAppend(written, kept);
    }
  }
}
