/** One node of the level-of-detail quadtree (Source/VectorTileLOD.js): child
    addressing, the refine-or-accept decision, and the per-tile state machine
    `none -> loading -> loaded -> initializing -> ready` with its two admission
    counters, the source fetch bookkeeping, the render-layer build, the
    `renderable` flag, `render` and `unload`.

    Tiles live in an arena keyed by their tile key, so a key is also the
    handle the tree, the cache list and the render list use. Cesium's
    bounding-region distance and visibility, the fog term, feature filters and
    the visualizers' own updates are inputs. */
module Tiles {
  import opened Wrappers
  import opened Features
  import opened Style
  import opened Registry
  import opened RenderLayers
  import opened Visualizers
  import RenderList

  // ---------------------------------------------------------------------
  // Records.

  /** `Cesium.Intersect`. */
  datatype Intersect = Outside | Intersecting | Inside

  /** The tile states the code assigns; `'error'` is documented but never
      assigned. */
  datatype TileState = StateNone | Loading | Loaded | Initializing | Ready

  /** A visualizer of one layer type on one tile, followed by its state and
      the indices (into the tile's layers) of the layers added to it. */
  datatype TileVisualizer = TileVisualizer(layerType: string, cls: VisualizerClass, layers: seq<nat>, state: VisState)

  /** A `VectorTileLOD`. `distance` and `visibility` are `undefined` (`None`)
      until the first visit; `parent` is `None` for a root, whose parent is
      the tileset. */
  datatype Tile = Tile(
    x: nat, y: nat, z: nat, key: nat,
    parent: Option<nat>,
    children: seq<nat>,
    distance: Option<real>,
    visibility: Option<Intersect>,
    state: TileState,
    renderable: bool,
    lastVisitTime: int,
    expired: bool,
    sources: map<string, TileData>,
    layers: seq<RenderLayer>,
    visualizers: seq<TileVisualizer>)

  /** The arena and the module-level `nextTileKey` counter. */
  datatype Tree = Tree(tiles: map<nat, Tile>, nextKey: nat)

  /** `new VectorTileLOD({x, y, z, parent})` with key `key`. */
  function NewTile(x: nat, y: nat, z: nat, key: nat, parent: Option<nat>): (t: Tile)
    ensures t.x == x && t.y == y && t.z == z && t.key == key && t.parent == parent
    ensures t.children == [] && t.state == StateNone && !t.renderable && t.lastVisitTime == 0 && !t.expired
    ensures t.sources == map[] && t.layers == [] && t.visualizers == []
    ensures t.distance.None? && t.visibility.None?
  {
    Tile(x, y, z, key, parent, [], None, None, StateNone, false, 0, false, map[], [], [])
  }

  /** Keys are handles, every key is below the counter, and children are
      tiles one level down, four of them or none. */
  predicate ArenaOk(tree: Tree) {
    forall k | k in tree.tiles :: NodeOk(tree, k)
  }

  /** The arena facts about one key. */
  predicate NodeOk(tree: Tree, k: nat)
    requires k in tree.tiles
  {
    tree.tiles[k].key == k && k < tree.nextKey &&
    (|tree.tiles[k].children| == 0 || |tree.tiles[k].children| == 4) &&
    forall i | 0 <= i < |tree.tiles[k].children| ::
      tree.tiles[k].children[i] in tree.tiles && tree.tiles[tree.tiles[k].children[i]].z == tree.tiles[k].z + 1
  }

  /** Every key in use is below the counter. */
  predicate KeysBelow(tree: Tree) {
    forall k | k in tree.tiles :: k < tree.nextKey
  }

  /** A new tile with the next key. */
  function AddTile(tree: Tree, x: nat, y: nat, z: nat, parent: Option<nat>): (r: Tree)
    ensures r.nextKey == tree.nextKey + 1
    ensures r.tiles.Keys == tree.tiles.Keys + {tree.nextKey}
    ensures r.tiles[tree.nextKey] == NewTile(x, y, z, tree.nextKey, parent)
    ensures forall k | k in tree.tiles && k != tree.nextKey :: r.tiles[k] == tree.tiles[k]
  {
    Tree(tree.tiles[tree.nextKey := NewTile(x, y, z, tree.nextKey, parent)], tree.nextKey + 1)
  }

  /** A new tile keeps the arena well formed. */
  lemma AddTileKeepsArena(tree: Tree, x: nat, y: nat, z: nat, parent: Option<nat>)
    requires ArenaOk(tree)
    ensures ArenaOk(AddTile(tree, x, y, z, parent)) && KeysBelow(AddTile(tree, x, y, z, parent))
  {
    var r := AddTile(tree, x, y, z, parent);
    forall k | k in tree.tiles
      ensures forall i | 0 <= i < |r.tiles[k].children| :: r.tiles[r.tiles[k].children[i]].z == r.tiles[k].z + 1
    {
      assert r.tiles[k] == tree.tiles[k];
      forall i | 0 <= i < |r.tiles[k].children| ensures r.tiles[r.tiles[k].children[i]].z == r.tiles[k].z + 1 {
        assert r.tiles[k].children[i] in tree.tiles;
      }
    }
  }

  /** `createChildren()`: four children one level down, in the order
      (2x, 2y+1), (2x+1, 2y+1), (2x, 2y), (2x+1, 2y), with the next four keys,
      appended to the children. */
  function CreateChildren(tree: Tree, key: nat): (r: Tree)
    requires key in tree.tiles && KeysBelow(tree)
    ensures r.nextKey == tree.nextKey + 4
    ensures r.tiles.Keys == tree.tiles.Keys + {tree.nextKey, tree.nextKey + 1, tree.nextKey + 2, tree.nextKey + 3}
    ensures forall k | k in tree.tiles && k != key :: r.tiles[k] == tree.tiles[k]
    ensures r.tiles[key] == tree.tiles[key].(children := tree.tiles[key].children + [tree.nextKey, tree.nextKey + 1, tree.nextKey + 2, tree.nextKey + 3])
    ensures var p := tree.tiles[key]; var n := tree.nextKey;
            r.tiles[n] == NewTile(2 * p.x, 2 * p.y + 1, p.z + 1, n, Some(key)) &&
            r.tiles[n + 1] == NewTile(2 * p.x + 1, 2 * p.y + 1, p.z + 1, n + 1, Some(key)) &&
            r.tiles[n + 2] == NewTile(2 * p.x, 2 * p.y, p.z + 1, n + 2, Some(key)) &&
            r.tiles[n + 3] == NewTile(2 * p.x + 1, 2 * p.y, p.z + 1, n + 3, Some(key))
  {
    var p := tree.tiles[key];
    var n := tree.nextKey;
    var tiles := tree.tiles[n := NewTile(2 * p.x, 2 * p.y + 1, p.z + 1, n, Some(key))]
                           [n + 1 := NewTile(2 * p.x + 1, 2 * p.y + 1, p.z + 1, n + 1, Some(key))]
                           [n + 2 := NewTile(2 * p.x, 2 * p.y, p.z + 1, n + 2, Some(key))]
                           [n + 3 := NewTile(2 * p.x + 1, 2 * p.y, p.z + 1, n + 3, Some(key))];
    Tree(tiles[key := p.(children := p.children + [n, n + 1, n + 2, n + 3])], n + 4)
  }

  // ---------------------------------------------------------------------
  // The tiles form a forest.

  /** No element twice. */
  predicate Distinct(s: seq<nat>) {
    forall i, j | 0 <= i < j < |s| :: s[i] != s[j]
  }

  /** Each tile has at most one parent, and no child twice. */
  predicate Forest(tree: Tree) {
    (forall p | p in tree.tiles :: Distinct(tree.tiles[p].children)) &&
    (forall p, q, c | p in tree.tiles && q in tree.tiles && c in tree.tiles[p].children && c in tree.tiles[q].children :: p == q)
  }

  /** Children created with fresh keys keep the tree a forest. */
  lemma CreateChildrenForest(tree: Tree, key: nat)
    requires key in tree.tiles && ArenaOk(tree) && tree.tiles[key].children == [] && Forest(tree)
    ensures KeysBelow(tree)
    ensures Forest(CreateChildren(tree, key))
  {
    var r := CreateChildren(tree, key);
    CreateChildrenDistinct(tree, key);
    forall p, q, c | p in r.tiles && q in r.tiles && c in r.tiles[p].children && c in r.tiles[q].children
      ensures p == q
    {
      ChildOfCreated(tree, key, p, c);
      ChildOfCreated(tree, key, q, c);
    }
  }

  lemma CreateChildrenDistinct(tree: Tree, key: nat)
    requires key in tree.tiles && ArenaOk(tree) && tree.tiles[key].children == [] && Forest(tree)
    ensures KeysBelow(tree)
    ensures forall p | p in CreateChildren(tree, key).tiles :: Distinct(CreateChildren(tree, key).tiles[p].children)
  {
    var r := CreateChildren(tree, key);
    forall p | p in r.tiles ensures Distinct(r.tiles[p].children) {
      CreatedChildrenOf(tree, key, p);
    }
  }

  /** The children of each tile after `CreateChildren`. */
  lemma CreatedChildrenOf(tree: Tree, key: nat, p: nat)
    requires key in tree.tiles && KeysBelow(tree) && tree.tiles[key].children == []
    requires p in CreateChildren(tree, key).tiles
    ensures var n := tree.nextKey;
            CreateChildren(tree, key).tiles[p].children ==
              if p == key then [n, n + 1, n + 2, n + 3] else if p in tree.tiles then tree.tiles[p].children else []
  {
    var n := tree.nextKey;
    if p != key && p !in tree.tiles {
      assert p == n || p == n + 1 || p == n + 2 || p == n + 3;
    }
  }

  /** In the tree after `CreateChildren`, the new keys are the children of
      `key` and the other children are the old ones, below the old
      `nextKey`. */
  lemma ChildOfCreated(tree: Tree, key: nat, p: nat, c: nat)
    requires key in tree.tiles && ArenaOk(tree) && tree.tiles[key].children == [] && KeysBelow(tree)
    requires p in CreateChildren(tree, key).tiles && c in CreateChildren(tree, key).tiles[p].children
    ensures p == key ==> c >= tree.nextKey
    ensures p != key ==> p in tree.tiles && c in tree.tiles[p].children && c < tree.nextKey
  {
    var r := CreateChildren(tree, key);
    if p != key {
      if p in tree.tiles {
        assert NodeOk(tree, p);
        assert r.tiles[p] == tree.tiles[p];
        var i :| 0 <= i < |tree.tiles[p].children| && tree.tiles[p].children[i] == c;
      }
    }
  }

  /** Two sequences without repeats and without a common element make one. */
  lemma DistinctAppend(a: seq<nat>, b: seq<nat>)
    requires Distinct(a) && Distinct(b) && forall x | x in a && x in b :: false
    ensures Distinct(a + b)
  {
    var s := a + b;
    forall i, j | 0 <= i < j < |s| ensures s[i] != s[j] {
      if i < |a| && j >= |a| {
        assert s[i] in a && s[j] == b[j - |a|];
      } else if i >= |a| {
        assert s[i] == b[i - |a|] && s[j] == b[j - |a|];
      }
    }
  }

  lemma DistinctTail(s: seq<nat>)
    requires |s| > 0 && Distinct(s)
    ensures Distinct(s[1..]) && s[0] !in s[1..]
  {
    forall i | 0 <= i < |s[1..]| ensures s[1..][i] != s[0] {
      assert s[1..][i] == s[i + 1];
    }
  }

  /** Distinctness is a matter of counts, so a permutation keeps it. */
  lemma DistinctPerm(a: seq<nat>, b: seq<nat>)
    requires Distinct(a) && multiset(a) == multiset(b)
    ensures Distinct(b)
  {
    DistinctCounts(a);
    forall i, j | 0 <= i < j < |b| ensures b[i] != b[j] {
      if b[i] == b[j] {
        TwiceCounted(b, i, j);
      }
    }
  }

  lemma {:induction false} DistinctCounts(s: seq<nat>)
    requires Distinct(s)
    ensures forall x :: multiset(s)[x] <= 1
  {
    if |s| > 0 {
      DistinctTail(s);
      DistinctCounts(s[1..]);
      assert s == [s[0]] + s[1..];
      assert multiset(s) == multiset([s[0]]) + multiset(s[1..]);
    }
  }

  lemma TwiceCounted(s: seq<nat>, i: nat, j: nat)
    requires i < j < |s| && s[i] == s[j]
    ensures multiset(s)[s[i]] >= 2
  {
    assert s == s[..j] + [s[j]] + s[j + 1..];
    assert s[i] in s[..j];
    assert multiset(s) == multiset(s[..j]) + multiset([s[j]]) + multiset(s[j + 1..]);
  }

  /** A slice of a sequence without repeats has none. */
  lemma DistinctDrop(s: seq<nat>, n: nat)
    requires Distinct(s) && n <= |s|
    ensures Distinct(s[n..])
  {
    forall i, j | 0 <= i < j < |s[n..]| ensures s[n..][i] != s[n..][j] {
      assert s[n..][i] == s[n + i] && s[n..][j] == s[n + j];
    }
  }

  /** A new tile, childless and with a key no tile has as a child, keeps the
      tree a forest. */
  lemma AddTileForest(tree: Tree, x: nat, y: nat, z: nat, parent: Option<nat>)
    requires ArenaOk(tree) && Forest(tree)
    ensures Forest(AddTile(tree, x, y, z, parent))
  {
    var r := AddTile(tree, x, y, z, parent);
    forall p, q, c | p in r.tiles && q in r.tiles && c in r.tiles[p].children && c in r.tiles[q].children
      ensures p == q
    {
      assert p in tree.tiles && q in tree.tiles;
    }
  }

  /** Creating the children of a childless tile keeps the arena well formed. */
  lemma CreateChildrenKeepsArena(tree: Tree, key: nat)
    requires key in tree.tiles && ArenaOk(tree) && tree.tiles[key].children == []
    ensures ArenaOk(CreateChildren(tree, key))
  {
    var r := CreateChildren(tree, key);
    forall k | k in r.tiles ensures NodeOk(r, k) {
      CreateChildrenNodeOk(tree, key, k);
    }
  }

  lemma CreateChildrenNodeOk(tree: Tree, key: nat, k: nat)
    requires key in tree.tiles && ArenaOk(tree) && tree.tiles[key].children == []
    requires k in CreateChildren(tree, key).tiles
    ensures NodeOk(CreateChildren(tree, key), k)
  {
    if k == key {
      CreateChildrenParentOk(tree, key);
    } else if k in tree.tiles {
      CreateChildrenOldOk(tree, key, k);
    } else {
      assert CreateChildren(tree, key).tiles[k].children == [];
    }
  }

  lemma CreateChildrenParentOk(tree: Tree, key: nat)
    requires key in tree.tiles && ArenaOk(tree) && tree.tiles[key].children == []
    ensures NodeOk(CreateChildren(tree, key), key)
  {
    var r := CreateChildren(tree, key);
    var n := tree.nextKey;
    assert r.tiles[key].children == [n, n + 1, n + 2, n + 3];
  }

  lemma CreateChildrenOldOk(tree: Tree, key: nat, k: nat)
    requires key in tree.tiles && ArenaOk(tree) && k in tree.tiles && k != key
    ensures NodeOk(CreateChildren(tree, key), k)
  {
    var r := CreateChildren(tree, key);
    assert NodeOk(tree, k);
    assert r.tiles[k] == tree.tiles[k];
    forall i | 0 <= i < |r.tiles[k].children|
      ensures r.tiles[k].children[i] in r.tiles && r.tiles[r.tiles[k].children[i]].z == r.tiles[k].z + 1
    {
      var c := tree.tiles[k].children[i];
      assert c in tree.tiles && r.tiles[c].z == tree.tiles[c].z;
    }
  }

  // ---------------------------------------------------------------------
  // Geometric error and screen-space error.

  function Pow2(n: nat): (r: nat)
    ensures r >= 1
  {
    if n == 0 then 1 else 2 * Pow2(n - 1)
  }

  /** JavaScript `1 << z`: the shift count is taken modulo 32 and the result
      is a signed 32-bit integer, so `1 << 31` is -2^31 and `1 << 32` is 1. */
  function ShiftOne(z: nat): (r: int)
    ensures r != 0
    ensures z % 32 < 31 ==> r == Pow2(z % 32)
    ensures z % 32 == 31 ==> r == -(Pow2(31) as int)
  {
    if z % 32 == 31 then -(Pow2(31) as int) else Pow2(z % 32)
  }

  /** `getLevelMaximumGeometricError(z)`: the once-computed level-zero error
      `e0` divided by `1 << z`. */
  function LevelError(e0: real, z: nat): real {
    e0 / ShiftOne(z) as real
  }

  /** Below level 30 the error halves from one level to the next; at level 31
      the shift turns negative. */
  lemma LevelErrorHalves(e0: real, z: nat)
    requires e0 > 0.0
    ensures z % 32 < 30 ==> LevelError(e0, z + 1) * 2.0 == LevelError(e0, z)
    ensures z % 32 < 31 ==> LevelError(e0, z) > 0.0
    ensures z % 32 == 31 ==> LevelError(e0, z) < 0.0
  {
    if z % 32 < 30 {
      assert (z + 1) % 32 == z % 32 + 1;
      assert ShiftOne(z + 1) == 2 * ShiftOne(z);
      var s := ShiftOne(z) as real;
      assert LevelError(e0, z + 1) == e0 / (2.0 * s);
    }
  }

  /** What a frame tells a tile about the camera: drawing-buffer height, the
      frustum's SSE denominator, pixel ratio, the fog term to subtract at a
      distance (zero with fog disabled), the maximum screen-space error, the
      level-zero geometric error, and the bounding-region visibility and
      distance of the tile at an address. */
  datatype View = View(
    height: real, sseDenominator: real, pixelRatio: real,
    fog: real -> real,
    maxSse: real,
    e0: real,
    visibility: (nat, nat, nat) -> Intersect,
    distance: (nat, nat, nat) -> real)

  predicate ValidView(v: View) {
    v.height > 0.0 && v.sseDenominator > 0.0 && v.pixelRatio > 0.0 && v.e0 > 0.0
  }

  /** `screenSpaceError` at a non-zero distance. */
  function Sse(v: View, z: nat, d: real): real
    requires ValidView(v) && d != 0.0
  {
    (LevelError(v.e0, z) * v.height / (d * v.sseDenominator) - v.fog(d)) / v.pixelRatio
  }

  /** With fog off, the screen-space error does not grow with distance. */
  lemma SseNonIncreasing(v: View, z: nat, d1: real, d2: real)
    requires ValidView(v) && 0.0 < d1 <= d2 && v.fog(d1) == 0.0 && v.fog(d2) == 0.0 && z % 32 < 31
    ensures Sse(v, z, d1) >= Sse(v, z, d2)
  {
    LevelErrorHalves(v.e0, z);
    var a := LevelError(v.e0, z) * v.height;
    assert a > 0.0;
    assert d1 * v.sseDenominator <= d2 * v.sseDenominator;
    assert a / (d1 * v.sseDenominator) >= a / (d2 * v.sseDenominator) by {
      var p := d1 * v.sseDenominator;
      var q := d2 * v.sseDenominator;
      assert 0.0 < p <= q;
      assert a / p * p == a && a / q * q == a;
      assert a / p * q >= a;
    }
  }

  /** The outcome of `visit`: culled, `visitChildren`, or `accept`. */
  datatype Decision = Culled | Refine | Accept

  /** The decision for a tile. At distance zero JavaScript divides a
      non-zero error by zero and gets an infinity of the error's sign, so the
      tile refines exactly when its level error is positive. */
  function Decide(v: View, x: nat, y: nat, z: nat): (r: Decision)
    requires ValidView(v)
    ensures r == Culled <==> v.visibility(x, y, z) == Outside
    ensures r != Culled && v.distance(x, y, z) != 0.0 ==>
              (r == Refine <==> Sse(v, z, v.distance(x, y, z)) >= v.maxSse)
    ensures r != Culled && v.distance(x, y, z) == 0.0 ==> (r == Refine <==> z % 32 < 31)
  {
    LevelErrorHalves(v.e0, z);
    if v.visibility(x, y, z) == Outside then Culled
    else
      var d := v.distance(x, y, z);
      if d == 0.0 then (if LevelError(v.e0, z) > 0.0 then Refine else Accept)
      else if Sse(v, z, d) >= v.maxSse then Refine else Accept
  }

  /** A tile closer to the camera refines whenever a farther one at the same
      level does (fog off, same visibility). */
  lemma CloserRefines(v: View, x1: nat, y1: nat, x2: nat, y2: nat, z: nat)
    requires ValidView(v) && z % 32 < 31
    requires v.visibility(x1, y1, z) != Outside
    requires 0.0 < v.distance(x1, y1, z) <= v.distance(x2, y2, z)
    requires v.fog(v.distance(x1, y1, z)) == 0.0 && v.fog(v.distance(x2, y2, z)) == 0.0
    requires Decide(v, x2, y2, z) == Refine
    ensures Decide(v, x1, y1, z) == Refine
  {
    SseNonIncreasing(v, z, v.distance(x1, y1, z), v.distance(x2, y2, z));
  }

  /** `visit`: the tile records its distance and visibility, then exactly one
      of culled / `visitChildren` / `accept` happens. */
  function Visit(t: Tile, v: View): (r: (Tile, Decision))
    requires ValidView(v)
    ensures r.0 == t.(distance := Some(v.distance(t.x, t.y, t.z)), visibility := Some(v.visibility(t.x, t.y, t.z)))
    ensures r.1 == Decide(v, t.x, t.y, t.z)
  {
    (t.(distance := Some(v.distance(t.x, t.y, t.z)), visibility := Some(v.visibility(t.x, t.y, t.z))),
     Decide(v, t.x, t.y, t.z))
  }

  // ---------------------------------------------------------------------
  // getSources.

  /** The ids `getSources` requests, in first-occurrence order: each source id
      of a style layer that names a tileset source, once. */
  function SourcesToLoad(styleSources: seq<Option<string>>, registered: set<string>, acc: seq<string>): (r: seq<string>)
    requires forall i, j | 0 <= i < j < |acc| :: acc[i] != acc[j]
    ensures |r| >= |acc| && r[..|acc|] == acc
    ensures forall i, j | 0 <= i < j < |r| :: r[i] != r[j]
    ensures forall id | id in r :: id in acc || (id in registered && Some(id) in styleSources)
    ensures forall i | 0 <= i < |styleSources| && styleSources[i].Some? && styleSources[i].value in registered ::
              styleSources[i].value in r
    decreases |styleSources|
  {
    if |styleSources| == 0 then acc
    else
      var s := styleSources[0];
      var acc' := if s.Some? && s.value in registered && s.value !in acc then acc + [s.value] else acc;
      var r := SourcesToLoad(styleSources[1..], registered, acc');
      assert forall id | Some(id) in styleSources[1..] :: Some(id) in styleSources;
      assert acc'[..|acc|] == acc;
      assert s.Some? && s.value in registered ==> s.value in acc' && s.value in r[..|acc'|];
      assert forall i | 1 <= i < |styleSources| :: styleSources[i] == styleSources[1..][i - 1];
      r
  }

  /** The admission counters and their caps. The caps are read but never
      assigned in the tileset, so an undefined cap (`None`) admits nothing. */
  datatype Counters = Counters(numLoading: int, numInitializing: int)
  datatype Caps = Caps(maxLoading: Option<int>, maxInitializing: Option<int>)

  /** The end of a fetch pass: every requested id whose request produced data
      gets it, the counter drops and the tile is `loaded`, whatever happened
      to it meanwhile. A failed or empty request (`None`) leaves the id as it
      was. */
  function CompleteLoad(t: Tile, c: Counters, ids: seq<string>, results: string -> Option<TileData>): (r: (Tile, Counters))
    ensures r.1 == c.(numLoading := c.numLoading - 1)
    ensures r.0 == t.(state := Loaded, sources := r.0.sources)
    ensures r.0.sources.Keys == t.sources.Keys + (set id | id in ids && results(id).Some?)
    ensures forall id | id in ids && results(id).Some? :: r.0.sources[id] == results(id).value
    ensures forall id | id in t.sources && !(id in ids && results(id).Some?) :: r.0.sources[id] == t.sources[id]
  {
    var sources := map id | id in t.sources.Keys + (set id | id in ids && results(id).Some?) ::
                     if id in ids && results(id).Some? then results(id).value else t.sources[id];
    (t.(state := Loaded, sources := sources), c.(numLoading := c.numLoading - 1))
  }

  // ---------------------------------------------------------------------
  // createRenderLayers.

  /** What the build needs from the tileset: its style layers, the layer
      registry, the type of each tileset source, and the compiled filter of a
      style layer applied to a feature at a level. */
  datatype BuildEnv = BuildEnv(
    styleLayers: seq<StyleLayer>,
    tables: LayerTables,
    sourceTypes: map<string, string>,
    filter: (StyleLayer, nat, Feature) -> bool)

  /** What one style layer contributes: nothing, a layer with these features,
      or a throw (a source id the tileset does not know). */
  datatype LayerOutcome = Skip | Make(features: seq<Feature>) | Throw

  /** The features of a source layer that pass the style layer's filter. */
  function Filtered(sl: StyleLayer, z: nat, features: seq<Feature>, filter: (StyleLayer, nat, Feature) -> bool): (r: seq<Feature>)
    ensures forall f | f in r :: f in features && (sl.filter.Some? ==> filter(sl, z, f))
    ensures forall f | f in features && (sl.filter.None? || filter(sl, z, f)) :: f in r
    ensures sl.filter.None? ==> r == features
    decreases |features|
  {
    if |features| == 0 then []
    else
      var rest := Filtered(sl, z, features[1..], filter);
      assert forall f | f in features :: f == features[0] || f in features[1..];
      if sl.filter.None? || filter(sl, z, features[0]) then [features[0]] + rest else rest
  }

  /** A style layer given a falsy filter (`false`, `0`, `""`, `null`) has no
      filter, so every feature of its source layer passes, whatever the
      filter would have said. */
  lemma FalsyFilterKeepsAll(spec: LayerSpec, reference: Reference, z: nat, features: seq<Feature>,
                            filter: (StyleLayer, nat, Feature) -> bool)
    requires spec.filter.Some? && !Truthy(spec.filter.value.json)
    ensures Filtered(NewStyleLayer(spec, reference), z, features, filter) == features
  {
  }

  /** `""` and an unnamed source are falsy. */
  function SourceTypeOf(source: Option<string>, sourceTypes: map<string, string>): Option<string> {
    match source
    case None => Some("")
    case Some(id) => if id == "" then Some("") else if id in sourceTypes then Some(sourceTypes[id]) else None
  }

  /** The decision for one style layer. */
  function Outcome(sl: StyleLayer, t: Tile, env: BuildEnv): (r: LayerOutcome)
    ensures r != Skip ==> LookupRenderLayer(env.tables, sl.layerType).Some?
    ensures r.Make? && sl.layerType == "background" ==> r.features == []
    ensures r.Make? && sl.layerType != "background" ==>
              |r.features| > 0 && sl.source.Some? && sl.source.value in t.sources &&
              forall f | f in r.features :: sl.filter.Some? ==> env.filter(sl, t.z, f)
  {
    var registered := LookupRenderLayer(env.tables, sl.layerType).Some?;
    var isBackground := sl.layerType == "background";
    var data := if sl.source.Some? && sl.source.value in t.sources then Some(t.sources[sl.source.value]) else None;
    if (!isBackground && data.None?) || !registered then Skip
    else if isBackground then Make([])
    else
      match SourceTypeOf(sl.source, env.sourceTypes)
      case None => Throw
      case Some(sourceType) =>
        var sourceLayer := if sourceType == "geojson" then Some("_geojsonTileLayer") else sl.sourceLayer;
        if sourceLayer.None? || sourceLayer.value !in data.value then Skip
        else
          var features := Filtered(sl, t.z, data.value[sourceLayer.value], env.filter);
          if |features| == 0 then Skip else Make(features)
  }

  /** The index of the visualizer this build created for a type, if any. */
  function FindVisualizer(vs: seq<TileVisualizer>, from: nat, layerType: string): (r: Option<nat>)
    ensures r.Some? ==> from <= r.value < |vs| && vs[r.value].layerType == layerType
    ensures r.None? ==> forall i | from <= i < |vs| :: vs[i].layerType != layerType
    decreases |vs| - from
  {
    if from >= |vs| then None
    else if vs[from].layerType == layerType then Some(from)
    else FindVisualizer(vs, from + 1, layerType)
  }

  /** The layers and visualizers after the build, and whether it threw. */
  datatype Build = Build(layers: seq<RenderLayer>, visualizers: seq<TileVisualizer>, threw: bool)

  /** A visualizer holds valid layer indices of its own type. */
  predicate VisualizersOk(layers: seq<RenderLayer>, vs: seq<TileVisualizer>) {
    forall i, j | 0 <= i < |vs| && 0 <= j < |vs[i].layers| ::
      vs[i].layers[j] < |layers| && Type(layers[vs[i].layers[j]]) == Some(vs[i].layerType)
  }

  /** The types of the visualizers created from `from` on are distinct. */
  predicate OnePerType(vs: seq<TileVisualizer>, from: nat) {
    forall i, j | from <= i < j < |vs| :: vs[i].layerType != vs[j].layerType
  }

  function TileRefOf(t: Tile): TileRef {
    TileRef(t.key, t.x, t.y, t.z)
  }

  /** The layer list of visualizer `w` in `vs` starts with the one in `old`. */
  predicate LayersGrow(old_: seq<TileVisualizer>, vs: seq<TileVisualizer>) {
    |vs| >= |old_| &&
    forall w | 0 <= w < |old_| ::
      vs[w].layerType == old_[w].layerType && vs[w].cls == old_[w].cls &&
      |vs[w].layers| >= |old_[w].layers| && vs[w].layers[..|old_[w].layers|] == old_[w].layers
  }

  /** The build loop from style layer `i` on; visualizers at index `from` and
      beyond are the ones this build created, found by type. */
  function BuildFrom(t: Tile, env: BuildEnv, i: nat, layers: seq<RenderLayer>, vs: seq<TileVisualizer>, from: nat): (r: Build)
    requires i <= |env.styleLayers|
    ensures |r.layers| >= |layers| && r.layers[..|layers|] == layers
    decreases |env.styleLayers| - i
  {
    if i == |env.styleLayers| then Build(layers, vs, false)
    else
      var sl := env.styleLayers[i];
      match Outcome(sl, t, env)
      case Skip => BuildFrom(t, env, i + 1, layers, vs, from)
      case Throw => Build(layers, vs, true)
      case Make(features) =>
        var layers' := layers + [NewRenderLayer(features, sl, TileRefOf(t))];
        var r := BuildFrom(t, env, i + 1, layers', AddToVisualizer(vs, from, sl.layerType, LookupVisualizer(env.tables, sl.layerType), |layers|), from);
        assert r.layers[..|layers|] == layers'[..|layers|];
        r
  }

  /** `visualizer.addLayer`: the layer at index `k` joins the visualizer of
      its type, which is created first when this build has none yet. */
  function AddToVisualizer(vs: seq<TileVisualizer>, from: nat, layerType: string, cls: Option<VisualizerClass>, k: nat): (r: seq<TileVisualizer>)
    ensures cls.None? ==> r == vs
    ensures cls.Some? ==> |r| >= |vs|
  {
    match cls
    case None => vs
    case Some(c) =>
      match FindVisualizer(vs, from, layerType)
      case None => vs + [TileVisualizer(layerType, c, [k], VisNone)]
      case Some(w) => vs[w := vs[w].(layers := vs[w].layers + [k])]
  }

  /** Where `AddToVisualizer` put the layer. */
  lemma AddToVisualizerPlaces(vs: seq<TileVisualizer>, from: nat, layerType: string, c: VisualizerClass, k: nat)
    requires from <= |vs|
    ensures var r := AddToVisualizer(vs, from, layerType, Some(c), k);
            LayersGrow(vs, r) && r[..from] == vs[..from] &&
            exists w | from <= w < |r| :: k in r[w].layers && r[w].layerType == layerType
  {
    var r := AddToVisualizer(vs, from, layerType, Some(c), k);
    var found := FindVisualizer(vs, from, layerType);
    var w := if found.None? then |vs| else found.value;
    assert k in r[w].layers && r[w].layerType == layerType;
    forall w' | 0 <= w' < |vs| ensures r[w'].layers[..|vs[w'].layers|] == vs[w'].layers {
      if w' == w { assert r[w'].layers == vs[w'].layers + [k]; }
    }
  }

  /** Adding a layer of a registered visualizer type keeps visualizer layers
      valid, of their own type, and one visualizer per type. */
  lemma AddToVisualizerKeeps(layers: seq<RenderLayer>, vs: seq<TileVisualizer>, from: nat, layer: RenderLayer, c: VisualizerClass)
    requires from <= |vs| && VisualizersOk(layers, vs) && OnePerType(vs, from)
    requires layer.style.Some?
    ensures var vs' := AddToVisualizer(vs, from, layer.style.value.layerType, Some(c), |layers|);
            VisualizersOk(layers + [layer], vs') && OnePerType(vs', from)
  {
    var layers' := layers + [layer];
    var ty := layer.style.value.layerType;
    var vs' := AddToVisualizer(vs, from, ty, Some(c), |layers|);
    AddToVisualizerPlaces(vs, from, ty, c, |layers|);
    forall w, j | 0 <= w < |vs'| && 0 <= j < |vs'[w].layers|
      ensures vs'[w].layers[j] < |layers'| && Type(layers'[vs'[w].layers[j]]) == Some(vs'[w].layerType)
    {
      if w < |vs| && j < |vs[w].layers| {
        assert vs'[w].layers[j] == vs'[w].layers[..|vs[w].layers|][j] == vs[w].layers[j];
      } else {
        assert vs'[w].layers[j] == |layers|;
      }
    }
  }

  /** The build keeps each visualizer's layers valid and of its own type and
      keeps one visualizer per type among those it created. */
  lemma {:induction false} BuildKeepsVisualizers(t: Tile, env: BuildEnv, i: nat, layers: seq<RenderLayer>, vs: seq<TileVisualizer>, from: nat)
    requires i <= |env.styleLayers| && from <= |vs|
    requires VisualizersOk(layers, vs) && OnePerType(vs, from)
    ensures var r := BuildFrom(t, env, i, layers, vs, from);
            VisualizersOk(r.layers, r.visualizers) && OnePerType(r.visualizers, from)
    decreases |env.styleLayers| - i
  {
    if i < |env.styleLayers| {
      var sl := env.styleLayers[i];
      match Outcome(sl, t, env)
      case Skip => BuildKeepsVisualizers(t, env, i + 1, layers, vs, from);
      case Throw =>
      case Make(features) =>
        var layer := NewRenderLayer(features, sl, TileRefOf(t));
        var layers' := layers + [layer];
        var cls := LookupVisualizer(env.tables, sl.layerType);
        var vs' := AddToVisualizer(vs, from, sl.layerType, cls, |layers|);
        if cls.Some? {
          AddToVisualizerKeeps(layers, vs, from, layer, cls.value);
        } else {
          assert forall w, j | 0 <= w < |vs| && 0 <= j < |vs[w].layers| :: layers'[vs[w].layers[j]] == layers[vs[w].layers[j]];
        }
        BuildKeepsVisualizers(t, env, i + 1, layers', vs', from);
    }
  }

  /** The visualizers this build created carry the registered class of their
      type, and the ones before `from` are left alone. */
  lemma {:induction false} BuildVisualizerClasses(t: Tile, env: BuildEnv, i: nat, layers: seq<RenderLayer>, vs: seq<TileVisualizer>, from: nat)
    requires i <= |env.styleLayers| && from <= |vs|
    requires forall w | from <= w < |vs| :: LookupVisualizer(env.tables, vs[w].layerType) == Some(vs[w].cls)
    ensures var r := BuildFrom(t, env, i, layers, vs, from);
            |r.visualizers| >= from && r.visualizers[..from] == vs[..from] &&
            forall w | from <= w < |r.visualizers| :: LookupVisualizer(env.tables, r.visualizers[w].layerType) == Some(r.visualizers[w].cls)
    decreases |env.styleLayers| - i
  {
    if i < |env.styleLayers| {
      var sl := env.styleLayers[i];
      match Outcome(sl, t, env)
      case Skip => BuildVisualizerClasses(t, env, i + 1, layers, vs, from);
      case Throw =>
      case Make(features) =>
        var layers' := layers + [NewRenderLayer(features, sl, TileRefOf(t))];
        var cls := LookupVisualizer(env.tables, sl.layerType);
        var vs' := AddToVisualizer(vs, from, sl.layerType, cls, |layers|);
        if cls.Some? { AddToVisualizerPlaces(vs, from, sl.layerType, cls.value, |layers|); }
        BuildVisualizerClasses(t, env, i + 1, layers', vs', from);
    }
  }

  /** Every layer from index `lo` on is the layer some style layer in
      `styleLayers` makes on this tile. */
  predicate LayersFromStyle(b: Build, lo: nat, styleLayers: seq<StyleLayer>, t: Tile, env: BuildEnv) {
    forall k | lo <= k < |b.layers| ::
      b.layers[k].style.Some? && b.layers[k].style.value in styleLayers &&
      Outcome(b.layers[k].style.value, t, env).Make? &&
      b.layers[k] == NewRenderLayer(Outcome(b.layers[k].style.value, t, env).features, b.layers[k].style.value, TileRefOf(t))
  }

  /** Every layer the build adds comes from a style layer at `i` or later
      whose outcome is `Make`, built from that outcome's features. */
  lemma {:induction false} BuildLayersSound(t: Tile, env: BuildEnv, i: nat, layers: seq<RenderLayer>, vs: seq<TileVisualizer>, from: nat)
    requires i <= |env.styleLayers|
    ensures LayersFromStyle(BuildFrom(t, env, i, layers, vs, from), |layers|, env.styleLayers[i..], t, env)
    decreases |env.styleLayers| - i
  {
    if i < |env.styleLayers| {
      var sl := env.styleLayers[i];
      assert forall x | x in env.styleLayers[i + 1..] :: x in env.styleLayers[i..];
      match Outcome(sl, t, env)
      case Skip =>
        BuildLayersSound(t, env, i + 1, layers, vs, from);
        assert BuildFrom(t, env, i, layers, vs, from) == BuildFrom(t, env, i + 1, layers, vs, from);
      case Throw =>
      case Make(features) =>
        var layers' := layers + [NewRenderLayer(features, sl, TileRefOf(t))];
        var vs' := AddToVisualizer(vs, from, sl.layerType, LookupVisualizer(env.tables, sl.layerType), |layers|);
        BuildLayersSound(t, env, i + 1, layers', vs', from);
        var r := BuildFrom(t, env, i + 1, layers', vs', from);
        assert BuildFrom(t, env, i, layers, vs, from) == r;
        assert r.layers[|layers|] == r.layers[..|layers'|][|layers|] == layers'[|layers|];
        assert env.styleLayers[i..][0] == sl;
    }
  }

  /** Layer `k` sits in one of the visualizers from index `from` on. */
  predicate Placed(vs: seq<TileVisualizer>, from: nat, k: nat) {
    exists w | from <= w < |vs| :: k in vs[w].layers
  }

  /** Every layer from index `lo` on whose type has a visualizer class is
      placed in a visualizer from index `from` on. */
  predicate AllPlaced(b: Build, lo: nat, from: nat, tables: LayerTables) {
    forall k: nat | lo <= k < |b.layers| ::
      b.layers[k].style.Some? && LookupVisualizer(tables, b.layers[k].style.value.layerType).Some? ==>
        Placed(b.visualizers, from, k)
  }

  /** Placing layer `lo` extends the placement from `lo + 1` to `lo`. */
  lemma AllPlacedExtend(b: Build, lo: nat, from: nat, tables: LayerTables)
    requires AllPlaced(b, lo + 1, from, tables)
    requires lo < |b.layers| && b.layers[lo].style.Some? && LookupVisualizer(tables, b.layers[lo].style.value.layerType).Some? ==>
               Placed(b.visualizers, from, lo)
    ensures AllPlaced(b, lo, from, tables)
  {
  }

  /** Appending to layer lists keeps a layer placed. */
  lemma PlacedPersists(vs: seq<TileVisualizer>, vs': seq<TileVisualizer>, from: nat, k: nat)
    requires LayersGrow(vs, vs') && Placed(vs, from, k)
    ensures Placed(vs', from, k)
  {
    var w :| from <= w < |vs| && k in vs[w].layers;
    assert vs'[w].layers[..|vs[w].layers|] == vs[w].layers;
    assert k in vs'[w].layers;
  }

  /** Every added layer whose type has a visualizer class sits in one of the
      visualizers this build created. */
  lemma {:induction false} BuildPlacesLayers(t: Tile, env: BuildEnv, i: nat, layers: seq<RenderLayer>, vs: seq<TileVisualizer>, from: nat)
    requires i <= |env.styleLayers| && from <= |vs|
    ensures AllPlaced(BuildFrom(t, env, i, layers, vs, from), |layers|, from, env.tables)
    decreases |env.styleLayers| - i
  {
    if i < |env.styleLayers| {
      var sl := env.styleLayers[i];
      match Outcome(sl, t, env)
      case Skip =>
        BuildPlacesLayers(t, env, i + 1, layers, vs, from);
      case Throw =>
      case Make(features) =>
        var layers' := layers + [NewRenderLayer(features, sl, TileRefOf(t))];
        var cls := LookupVisualizer(env.tables, sl.layerType);
        var vs' := AddToVisualizer(vs, from, sl.layerType, cls, |layers|);
        BuildPlacesLayers(t, env, i + 1, layers', vs', from);
        var r := BuildFrom(t, env, i + 1, layers', vs', from);
        assert r.layers[|layers|] == r.layers[..|layers'|][|layers|] == layers'[|layers|];
        if cls.Some? {
          AddToVisualizerPlaces(vs, from, sl.layerType, cls.value, |layers|);
          assert Placed(vs', from, |layers|);
          BuildGrows(t, env, i + 1, layers', vs', from);
          PlacedPersists(vs', r.visualizers, from, |layers|);
        }
        AllPlacedExtend(r, |layers|, from, env.tables);
    }
  }

  /** The build only appends to visualizers' layer lists. */
  lemma {:induction false} BuildGrows(t: Tile, env: BuildEnv, i: nat, layers: seq<RenderLayer>, vs: seq<TileVisualizer>, from: nat)
    requires i <= |env.styleLayers| && from <= |vs|
    ensures LayersGrow(vs, BuildFrom(t, env, i, layers, vs, from).visualizers)
    decreases |env.styleLayers| - i
  {
    if i < |env.styleLayers| {
      var sl := env.styleLayers[i];
      match Outcome(sl, t, env)
      case Skip => BuildGrows(t, env, i + 1, layers, vs, from);
      case Throw =>
      case Make(features) =>
        var layers' := layers + [NewRenderLayer(features, sl, TileRefOf(t))];
        var cls := LookupVisualizer(env.tables, sl.layerType);
        var vs' := AddToVisualizer(vs, from, sl.layerType, cls, |layers|);
        if cls.Some? { AddToVisualizerPlaces(vs, from, sl.layerType, cls.value, |layers|); }
        BuildGrows(t, env, i + 1, layers', vs', from);
        var r := BuildFrom(t, env, i + 1, layers', vs', from);
        forall w | 0 <= w < |vs| ensures r.visualizers[w].layers[..|vs[w].layers|] == vs[w].layers {
          assert r.visualizers[w].layers[..|vs'[w].layers|] == vs'[w].layers;
        }
    }
  }

  /** The build throws exactly when some style layer from `i` on throws. */
  lemma {:induction false} BuildThrows(t: Tile, env: BuildEnv, i: nat, layers: seq<RenderLayer>, vs: seq<TileVisualizer>, from: nat)
    requires i <= |env.styleLayers|
    ensures BuildFrom(t, env, i, layers, vs, from).threw <==> exists j | i <= j < |env.styleLayers| :: Outcome(env.styleLayers[j], t, env).Throw?
    decreases |env.styleLayers| - i
  {
    if i < |env.styleLayers| {
      var sl := env.styleLayers[i];
      match Outcome(sl, t, env)
      case Skip => BuildThrows(t, env, i + 1, layers, vs, from);
      case Throw =>
      case Make(features) =>
        var layers' := layers + [NewRenderLayer(features, sl, TileRefOf(t))];
        BuildThrows(t, env, i + 1, layers', AddToVisualizer(vs, from, sl.layerType, LookupVisualizer(env.tables, sl.layerType), |layers|), from);
    }
  }

  /** `createRenderLayers`: the build runs synchronously; without a throw the
      tile ends `ready`, after a throw it stays `initializing` with what was
      built so far. Every layer built comes from a style layer whose type is
      registered and which yielded features (or is a background), and every
      built layer whose type has a visualizer class sits in the one visualizer
      of its type this build created. */
  function CreateRenderLayers(t: Tile, env: BuildEnv): (r: Tile)
    requires VisualizersOk(t.layers, t.visualizers) && t.state == Initializing
    ensures r == t.(layers := r.layers, visualizers := r.visualizers, state := r.state)
    ensures r.state == Ready <==> forall j | 0 <= j < |env.styleLayers| :: !Outcome(env.styleLayers[j], t, env).Throw?
    ensures r.state != Ready ==> r.state == t.state
    ensures VisualizersOk(r.layers, r.visualizers) && OnePerType(r.visualizers, |t.visualizers|)
    ensures |r.layers| >= |t.layers| && r.layers[..|t.layers|] == t.layers
    ensures forall k | |t.layers| <= k < |r.layers| ::
              r.layers[k].style.Some? && r.layers[k].style.value in env.styleLayers &&
              Outcome(r.layers[k].style.value, t, env).Make? &&
              r.layers[k] == NewRenderLayer(Outcome(r.layers[k].style.value, t, env).features, r.layers[k].style.value, TileRefOf(t))
    ensures forall k: nat | |t.layers| <= k < |r.layers| ::
              LookupVisualizer(env.tables, r.layers[k].style.value.layerType).Some? ==>
                Placed(r.visualizers, |t.visualizers|, k)
  {
    var b := BuildFrom(t, env, 0, t.layers, t.visualizers, |t.visualizers|);
    assert env.styleLayers[0..] == env.styleLayers;
    BuildKeepsVisualizers(t, env, 0, t.layers, t.visualizers, |t.visualizers|);
    BuildVisualizerClasses(t, env, 0, t.layers, t.visualizers, |t.visualizers|);
    BuildLayersSound(t, env, 0, t.layers, t.visualizers, |t.visualizers|);
    BuildPlacesLayers(t, env, 0, t.layers, t.visualizers, |t.visualizers|);
    BuildThrows(t, env, 0, t.layers, t.visualizers, |t.visualizers|);
    t.(layers := b.layers, visualizers := b.visualizers, state := if b.threw then t.state else Ready)
  }

  // ---------------------------------------------------------------------
  // update.

  /** `renderable`: no visualizer is still `none`, and no layer that is not
      hidden (`visibility` other than `'none'`) is in state `'none'`. */
  predicate AllReady(t: Tile) {
    (forall i | 0 <= i < |t.visualizers| :: t.visualizers[i].state != VisNone) &&
    (forall i | 0 <= i < |t.layers| :: !(t.layers[i].visibility != Some("none") && t.layers[i].state == Some("none")))
  }

  /** The layers still hold their style and tile (they are only dropped by
      `unload`, which also removes them from the tile). */
  predicate LayersLive(layers: seq<RenderLayer>) {
    forall i | 0 <= i < |layers| :: layers[i].style.Some? && layers[i].tile.Some?
  }

  /** Each layer's `update` in turn, on the frame's command list. */
  function UpdateLayers(layers: seq<RenderLayer>, frame: seq<DrawCommand>, eval: (Expr, real, Option<Feature>) -> Value): (r: seq<DrawCommand>)
    requires LayersLive(layers)
    ensures |r| >= |frame| && r[..|frame|] == frame
    decreases |layers|
  {
    if |layers| == 0 then frame
    else
      var f := RenderLayers.Update(layers[0], frame, eval).value;
      var r := UpdateLayers(layers[1..], f, eval);
      assert r[..|frame|] == f[..|frame|];
      r
  }

  /** The outcome of a tile's `update`: the tile, the counters, the ids of a
      fetch pass left pending (`None` when no pass is pending), and the
      frame's command list. */
  datatype TileStep = TileStep(tile: Tile, counters: Counters, pending: Option<seq<string>>, frame: seq<DrawCommand>)

  /** The load admission of `update`: a tile in `none` starts `getSources`
      while `numLoading <= tileset.maxLoading`; with nothing to
      request the pass completes before `update` goes on. */
  function LoadStep(t: Tile, c: Counters, caps: Caps, registered: set<string>, styleLayers: seq<StyleLayer>): (r: (Tile, Counters, Option<seq<string>>))
    ensures r.0 == t.(state := r.0.state)
    ensures var admitted := t.state == StateNone && caps.maxLoading.Some? && c.numLoading <= caps.maxLoading.value;
            (!admitted ==> r == (t, c, None)) &&
            (admitted ==> r.1.numInitializing == c.numInitializing &&
                          (r.2.Some? ==> r.0.state == Loading && r.2.value != [] && r.1.numLoading == c.numLoading + 1 &&
                                         forall id | id in r.2.value :: id in registered) &&
                          (r.2.None? ==> r.0.state == Loaded && r.1.numLoading == c.numLoading) &&
                          (r.2.None? <==> forall i | 0 <= i < |styleLayers| ::
                                            styleLayers[i].source.None? || styleLayers[i].source.value !in registered))
  {
    if t.state == StateNone && caps.maxLoading.Some? && c.numLoading <= caps.maxLoading.value then
      var ids := SourcesToLoad(SourceIds(styleLayers), registered, []);
      var loading := t.(state := Loading);
      var c' := c.(numLoading := c.numLoading + 1);
      if ids == [] then
        var done := CompleteLoad(loading, c', [], id => None);
        assert done.0.sources == t.sources;
        (done.0, done.1, None)
      else
        assert ids[0] in registered && Some(ids[0]) in SourceIds(styleLayers);
        (loading, c', Some(ids))
    else (t, c, None)
  }

  /** The build admission of `update`: a `loaded` tile is built while
      `numInitializing < tileset.maxInitializing`. */
  function BuildStep(t: Tile, c: Counters, caps: Caps, env: BuildEnv): (r: (Tile, Counters))
    requires VisualizersOk(t.layers, t.visualizers) && LayersLive(t.layers)
    ensures VisualizersOk(r.0.layers, r.0.visualizers) && LayersLive(r.0.layers)
    ensures r.0 == t.(layers := r.0.layers, visualizers := r.0.visualizers, state := r.0.state)
    ensures var admitted := t.state == Loaded && caps.maxInitializing.Some? && c.numInitializing < caps.maxInitializing.value;
            (!admitted ==> r == (t, c)) &&
            (admitted ==> r.1 == c.(numInitializing := c.numInitializing + 1) &&
                          r.0 == CreateRenderLayers(t.(state := Initializing), env))
  {
    if t.state == Loaded && caps.maxInitializing.Some? && c.numInitializing < caps.maxInitializing.value then
      CreateRenderLayersLive(t.(state := Initializing), env);
      (CreateRenderLayers(t.(state := Initializing), env), c.(numInitializing := c.numInitializing + 1))
    else (t, c)
  }

  /** The build keeps the layers a tile had and adds fresh ones, all holding
      their style and tile. */
  lemma CreateRenderLayersLive(t: Tile, env: BuildEnv)
    requires VisualizersOk(t.layers, t.visualizers) && t.state == Initializing && LayersLive(t.layers)
    ensures LayersLive(CreateRenderLayers(t, env).layers)
  {
    var b := CreateRenderLayers(t, env);
    forall i | 0 <= i < |b.layers| ensures b.layers[i].style.Some? && b.layers[i].tile.Some? {
      if i < |t.layers| {
        assert b.layers[i] == b.layers[..|t.layers|][i];
      }
    }
  }

  /** The `ready` part of `update`: visualizers update, every layer forwards
      its commands, and `renderable` is recomputed. */
  function ReadyStep(t: Tile, visUpdate: TileVisualizer -> VisState, eval: (Expr, real, Option<Feature>) -> Value,
                     frame: seq<DrawCommand>): (r: (Tile, seq<DrawCommand>))
    requires VisualizersOk(t.layers, t.visualizers) && LayersLive(t.layers)
    ensures r.0 == t.(visualizers := r.0.visualizers, renderable := r.0.renderable)
    ensures |r.0.visualizers| == |t.visualizers| &&
            forall i | 0 <= i < |t.visualizers| :: r.0.visualizers[i] == t.visualizers[i].(state := visUpdate(t.visualizers[i]))
    ensures VisualizersOk(r.0.layers, r.0.visualizers)
    ensures r.0.renderable <==> AllReady(r.0)
    ensures r.1 == UpdateLayers(t.layers, frame, eval)
  {
    var vs := seq(|t.visualizers|, i requires 0 <= i < |t.visualizers| => t.visualizers[i].(state := visUpdate(t.visualizers[i])));
    var t' := t.(visualizers := vs);
    (t'.(renderable := AllReady(t')), UpdateLayers(t.layers, frame, eval))
  }

  /** `update(frameState, renderList, tileset)`, the state part. `visUpdate`
      is each visualizer's update, seen through its new state. */
  function TileUpdate(t: Tile, c: Counters, caps: Caps, registered: set<string>, env: BuildEnv,
                      visUpdate: TileVisualizer -> VisState, eval: (Expr, real, Option<Feature>) -> Value,
                      frame: seq<DrawCommand>): (r: TileStep)
    requires VisualizersOk(t.layers, t.visualizers) && LayersLive(t.layers)
    ensures r.tile == t.(state := r.tile.state, sources := r.tile.sources, layers := r.tile.layers,
                         visualizers := r.tile.visualizers, renderable := r.tile.renderable)
    ensures r.tile.sources == t.sources
    ensures VisualizersOk(r.tile.layers, r.tile.visualizers) && LayersLive(r.tile.layers)
    // Load admission.
    ensures r.counters.numLoading != c.numLoading ==>
              t.state == StateNone && caps.maxLoading.Some? && c.numLoading <= caps.maxLoading.value &&
              r.counters.numLoading == c.numLoading + 1 && r.pending.Some?
    ensures r.pending.Some? ==> r.tile.state == Loading && r.pending.value != [] && r.counters.numLoading == c.numLoading + 1
    ensures r.pending.None? ==> r.counters.numLoading == c.numLoading
    ensures t.state == StateNone && (caps.maxLoading.None? || c.numLoading > caps.maxLoading.value) ==>
              r.tile == t && r.counters == c && r.pending.None? && r.frame == frame
    // Build admission.
    ensures r.counters.numInitializing != c.numInitializing ==>
              caps.maxInitializing.Some? && c.numInitializing < caps.maxInitializing.value &&
              r.counters.numInitializing == c.numInitializing + 1
    ensures t.state == Loaded && caps.maxInitializing.Some? && c.numInitializing < caps.maxInitializing.value ==>
              r.counters.numInitializing == c.numInitializing + 1 &&
              (r.tile.state == Ready || r.tile.state == Initializing)
    // The renderable flag and the frame.
    ensures r.tile.state == Ready ==> (r.tile.renderable <==> AllReady(r.tile))
    ensures r.tile.state != Ready ==> r.tile.renderable == t.renderable && r.frame == frame
  {
    var s1 := LoadStep(t, c, caps, registered, env.styleLayers);
    var s2 := BuildStep(s1.0, s1.1, caps, env);
    if s2.0.state == Ready then
      var s3 := ReadyStep(s2.0, visUpdate, eval, frame);
      TileStep(s3.0, s2.1, s1.2, s3.1)
    else TileStep(s2.0, s2.1, s1.2, frame)
  }

  /** The source id of every style layer, in order. */
  function SourceIds(styleLayers: seq<StyleLayer>): (r: seq<Option<string>>)
    ensures |r| == |styleLayers| && forall i | 0 <= i < |r| :: r[i] == styleLayers[i].source
  {
    seq(|styleLayers|, i requires 0 <= i < |styleLayers| => styleLayers[i].source)
  }

  /** Undefined caps admit nothing: a tile that has not started loading never
      does. */
  lemma UndefinedCapsAdmitNothing(t: Tile, c: Counters, registered: set<string>, env: BuildEnv,
                                  visUpdate: TileVisualizer -> VisState, eval: (Expr, real, Option<Feature>) -> Value,
                                  frame: seq<DrawCommand>)
    requires VisualizersOk(t.layers, t.visualizers) && LayersLive(t.layers) && t.state == StateNone
    ensures TileUpdate(t, c, Caps(None, None), registered, env, visUpdate, eval, frame).tile == t
  {
  }

  /** A tile whose style layers name no tileset source loads synchronously
      and, when building is admitted too, reaches `ready` in the same update. */
  lemma NothingToFetchLoadsAtOnce(t: Tile, c: Counters, caps: Caps, registered: set<string>, env: BuildEnv,
                                  visUpdate: TileVisualizer -> VisState, eval: (Expr, real, Option<Feature>) -> Value,
                                  frame: seq<DrawCommand>)
    requires VisualizersOk(t.layers, t.visualizers) && LayersLive(t.layers) && t.state == StateNone
    requires caps.maxLoading.Some? && c.numLoading <= caps.maxLoading.value
    requires forall i | 0 <= i < |env.styleLayers| :: env.styleLayers[i].source.None? || env.styleLayers[i].source.value !in registered
    ensures var r := TileUpdate(t, c, caps, registered, env, visUpdate, eval, frame);
            r.pending.None? && r.counters.numLoading == c.numLoading &&
            (r.tile.state == Loaded || r.tile.state == Initializing || r.tile.state == Ready)
  {
  }

  // ---------------------------------------------------------------------
  // render and unload.

  /** `render` with visualizer rendering taken as doing nothing: a renderable
      tile pushes every layer, in tile order, to the render list. `None` is a
      push that throws. */
  function Render(t: Tile, list: RenderList.RenderList): (r: Option<RenderList.RenderList>)
    ensures !t.renderable ==> r == Some(list)
    ensures r.Some? ==> r.value == list.(buckets := r.value.buckets) && |r.value.buckets| == |list.buckets|
  {
    if !t.renderable then Some(list) else RenderList.PushAll(list, t.layers)
  }

  /** A renderable tile's render throws exactly when one of its layers has no
      bucket; otherwise each bucket gains exactly the tile's layers of that
      style layer, in tile order. */
  lemma RenderGroupsLayers(t: Tile, list: RenderList.RenderList)
    requires t.renderable
    ensures Render(t, list).None? <==> exists j | 0 <= j < |t.layers| :: RenderList.Slot(list, t.layers[j]).None?
    ensures Render(t, list).Some? ==>
              forall k | 0 <= k < |list.buckets| ::
                Render(t, list).value.buckets[k] == list.buckets[k] + RenderList.InBucket(list, t.layers, k)
  {
    RenderList.PushAllFails(list, t.layers);
    if Render(t, list).Some? {
      forall k | 0 <= k < |list.buckets|
        ensures Render(t, list).value.buckets[k] == list.buckets[k] + RenderList.InBucket(list, t.layers, k)
      {
        RenderList.PushAllGroups(list, t.layers, k);
      }
    }
  }

  /** `render` as written: it also calls `render` on every visualizer, which
      the base class does not define and the fill visualizer does not add, and
      which in the symbol visualizer ends by calling the missing base method
      once the visualizer is `done`. */
  function RenderAsWritten(t: Tile, list: RenderList.RenderList): (r: Option<RenderList.RenderList>)
    ensures !t.renderable ==> r == Some(list)
    ensures t.renderable && (exists i | 0 <= i < |t.visualizers| :: RenderThrows(t.visualizers[i])) ==> r.None?
    ensures t.renderable && (forall i | 0 <= i < |t.visualizers| :: !RenderThrows(t.visualizers[i])) ==> r == Render(t, list)
  {
    if !t.renderable then Some(list)
    else if exists i | 0 <= i < |t.visualizers| :: RenderThrows(t.visualizers[i]) then None
    else Render(t, list)
  }

  /** Whether calling `render` on a visualizer throws. The line visualizer is
      not part of this model and is taken not to throw. */
  predicate RenderThrows(v: TileVisualizer) {
    v.cls == FillVisualizerClass || (v.cls == SymbolVisualizerClass && v.state == VisDone)
  }

  /** A renderable tile with a fill layer can never be rendered as written. */
  lemma RenderAsWrittenFailsWithFill(t: Tile, list: RenderList.RenderList, i: nat)
    requires t.renderable && i < |t.visualizers| && t.visualizers[i].cls == FillVisualizerClass
    ensures RenderAsWritten(t, list).None?
    ensures RenderList.PushAll(list, t.layers).Some? ==> Render(t, list).Some?
  {
    assert RenderThrows(t.visualizers[i]);
  }

  /** `unload()`: back to `none` with no layers, visualizers or source data;
      the children, the `renderable` flag and the visit bookkeeping stay. */
  function Unload(t: Tile): (r: Tile)
    ensures r.state == StateNone && r.layers == [] && r.visualizers == [] && r.sources == map[]
    ensures r == t.(state := r.state, layers := r.layers, visualizers := r.visualizers, sources := r.sources)
  {
    t.(state := StateNone, layers := [], visualizers := [], sources := map[])
  }
}
