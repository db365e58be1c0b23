/** The breadth-first level-of-detail walk of `getTilesToRender`
    (Source/VectorTileset.js): starting from the root tiles, every tile is
    visited once per frame; a culled tile is dropped, an accepted one (or one
    that would refine past the level cap) is rendered, and a refining one
    gets its children created on first need and queued.

    The queue is first-in first-out and every child sits one level below its
    parent, so the queue always holds the rest of one level followed by the
    part of the next level found so far. The walk is therefore written level
    by level: `VisitLevel` consumes one level and collects the next, in the
    order the queue would hold it. */
module Traversal {
  import opened Wrappers
  import opened Tiles

  /** The distance and visibility a visit under view `v` records. */
  predicate Stamped(t: Tile, v: View) {
    t.distance == Some(v.distance(t.x, t.y, t.z)) && t.visibility == Some(v.visibility(t.x, t.y, t.z))
  }

  /** What a walk may do to an existing tile: record its distance and
      visibility, and give a childless tile children. Nothing else changes. */
  predicate TileGrows(a: Tile, b: Tile, v: View) {
    b.(children := a.children, distance := a.distance, visibility := a.visibility) == a &&
    (b.children == a.children || a.children == []) &&
    ((b.distance == a.distance && b.visibility == a.visibility) || Stamped(b, v))
  }

  /** Every tile of `t1` is still in `t2`, changed only as `TileGrows` allows. */
  predicate TreeGrows(t1: Tree, t2: Tree, v: View) {
    t1.nextKey <= t2.nextKey &&
    forall k | k in t1.tiles :: k in t2.tiles && TileGrows(t1.tiles[k], t2.tiles[k], v)
  }

  lemma TileGrowsTrans(a: Tile, b: Tile, c: Tile, v: View)
    requires TileGrows(a, b, v) && TileGrows(b, c, v)
    ensures TileGrows(a, c, v)
  {
  }

  lemma TreeGrowsTrans(t1: Tree, t2: Tree, t3: Tree, v: View)
    requires TreeGrows(t1, t2, v) && TreeGrows(t2, t3, v)
    ensures TreeGrows(t1, t3, v)
  {
    forall k | k in t1.tiles ensures k in t3.tiles && TileGrows(t1.tiles[k], t3.tiles[k], v) {
      TileGrowsTrans(t1.tiles[k], t2.tiles[k], t3.tiles[k], v);
    }
  }

  /** Tiles all in the tree, all at level `z`. */
  predicate AtLevel(tree: Tree, keys: seq<nat>, z: nat) {
    forall i | 0 <= i < |keys| :: keys[i] in tree.tiles && tree.tiles[keys[i]].z == z
  }

  lemma AtLevelGrows(t1: Tree, t2: Tree, keys: seq<nat>, z: nat, v: View)
    requires AtLevel(t1, keys, z) && TreeGrows(t1, t2, v)
    ensures AtLevel(t2, keys, z)
  {
    forall i | 0 <= i < |keys| ensures keys[i] in t2.tiles && t2.tiles[keys[i]].z == z {
      assert TileGrows(t1.tiles[keys[i]], t2.tiles[keys[i]], v);
    }
  }

  /** The walk's state: the arena, the tileset's cache list and the tiles to
      render found so far. */
  datatype Walk = Walk(tree: Tree, cache: seq<nat>, accepted: seq<nat>)

  /** `tile.visit(frameState, visitor)` on tile `key`, recording the visit in
      the arena. */
  function StampTile(tree: Tree, key: nat, v: View): (r: Tree)
    requires ValidView(v) && key in tree.tiles
    ensures r.nextKey == tree.nextKey && r.tiles.Keys == tree.tiles.Keys
    ensures r.tiles[key] == Visit(tree.tiles[key], v).0
    ensures forall k | k in tree.tiles && k != key :: r.tiles[k] == tree.tiles[k]
  {
    Tree(tree.tiles[key := Visit(tree.tiles[key], v).0], tree.nextKey)
  }

  lemma StampTileGrows(tree: Tree, key: nat, v: View)
    requires ValidView(v) && key in tree.tiles && ArenaOk(tree)
    ensures ArenaOk(StampTile(tree, key, v)) && TreeGrows(tree, StampTile(tree, key, v), v)
    ensures Stamped(StampTile(tree, key, v).tiles[key], v)
  {
    var r := StampTile(tree, key, v);
    forall k | k in r.tiles ensures NodeOk(r, k) {
      assert NodeOk(tree, k);
      var t := tree.tiles[k];
      forall i | 0 <= i < |t.children| ensures t.children[i] in r.tiles && r.tiles[t.children[i]].z == t.z + 1 {
        assert t.children[i] in tree.tiles;
      }
    }
    forall k | k in tree.tiles ensures TileGrows(tree.tiles[k], r.tiles[k], v) {
    }
  }

  lemma CreateChildrenGrows(tree: Tree, key: nat, v: View)
    requires key in tree.tiles && ArenaOk(tree) && tree.tiles[key].children == []
    ensures KeysBelow(tree)
    ensures ArenaOk(CreateChildren(tree, key)) && TreeGrows(tree, CreateChildren(tree, key), v)
    ensures AtLevel(CreateChildren(tree, key), CreateChildren(tree, key).tiles[key].children, tree.tiles[key].z + 1)
  {
    CreateChildrenKeepsArena(tree, key);
    var r := CreateChildren(tree, key);
    forall k | k in tree.tiles ensures k in r.tiles && TileGrows(tree.tiles[k], r.tiles[k], v) {
    }
  }

  /** A tile whose children exist: they are in the tree, one level down. */
  lemma ChildrenAtLevel(tree: Tree, key: nat)
    requires key in tree.tiles && ArenaOk(tree)
    ensures AtLevel(tree, tree.tiles[key].children, tree.tiles[key].z + 1)
  {
    assert NodeOk(tree, key);
  }

  /** The smallest level at which every tile is at or past the cap. */
  function Cap(maxLevel: real): nat {
    if maxLevel <= 0.0 then 0 else maxLevel.Floor as nat + 1
  }

  lemma BelowCap(maxLevel: real, z: nat)
    requires (z as real) < maxLevel
    ensures z < Cap(maxLevel)
  {
  }

  /** What `visit` leads to for a visited tile: culled tiles are dropped, a
      tile that accepts or would refine at or past the level cap is rendered,
      any other tile's children are queued. */
  datatype Step = Drop | Render | Expand

  function StepOf(d: Decision, z: nat, maxLevel: real): Step {
    match d
    case Culled => Drop
    case Accept => Render
    case Refine => if z as real >= maxLevel then Render else Expand
  }

  /** One level of the walk: each tile of `level` in queue order, with
      `next` collecting the following level. */
  function VisitLevel(w: Walk, level: seq<nat>, next: seq<nat>, depth: nat, v: View, maxLevel: real): (r: (Walk, seq<nat>))
    requires ValidView(v) && ArenaOk(w.tree) && AtLevel(w.tree, level, depth) && AtLevel(w.tree, next, depth + 1)
    ensures ArenaOk(r.0.tree) && TreeGrows(w.tree, r.0.tree, v) && AtLevel(r.0.tree, r.1, depth + 1)
    ensures |r.1| == |next| || (depth as real) < maxLevel
    decreases |level|
  {
    if |level| == 0 then (w, next)
    else
      VisitFirst(w, level, next, depth, v, maxLevel);
      var adv := FirstAdvance(w, level, next, v, maxLevel);
      var r := VisitLevel(adv.0, level[1..], adv.1, depth, v, maxLevel);
      TreeGrowsTrans(w.tree, adv.0.tree, r.0.tree, v);
      r
  }

  /** The first tile of a level visited, and what follows from it. */
  function FirstAdvance(w: Walk, level: seq<nat>, next: seq<nat>, v: View, maxLevel: real): (r: (Walk, seq<nat>))
    requires ValidView(v) && |level| > 0 && level[0] in w.tree.tiles && KeysBelow(w.tree)
  {
    var key := level[0];
    var tree1 := StampTile(w.tree, key, v);
    var t := tree1.tiles[key];
    Advance(w, tree1, key, next, StepOf(Decide(v, t.x, t.y, t.z), t.z, maxLevel))
  }

  lemma VisitFirst(w: Walk, level: seq<nat>, next: seq<nat>, depth: nat, v: View, maxLevel: real)
    requires ValidView(v) && ArenaOk(w.tree) && AtLevel(w.tree, level, depth) && AtLevel(w.tree, next, depth + 1)
    requires |level| > 0
    ensures KeysBelow(w.tree) && level[0] in w.tree.tiles
    ensures var adv := FirstAdvance(w, level, next, v, maxLevel);
            ArenaOk(adv.0.tree) && TreeGrows(w.tree, adv.0.tree, v) &&
            AtLevel(adv.0.tree, level[1..], depth) && AtLevel(adv.0.tree, adv.1, depth + 1) &&
            (|adv.1| == |next| || (depth as real) < maxLevel)
  {
    var key := level[0];
    var tree1 := StampTile(w.tree, key, v);
    StampTileGrows(w.tree, key, v);
    var t := tree1.tiles[key];
    var step := StepOf(Decide(v, t.x, t.y, t.z), t.z, maxLevel);
    AdvanceOk(w, tree1, key, next, depth, v, maxLevel, step);
    var adv := Advance(w, tree1, key, next, step);
    AtLevelGrows(w.tree, adv.0.tree, level[1..], depth, v);
  }

  /** The effect of one visited tile on the walk and on the next level. */
  function Advance(w: Walk, tree1: Tree, key: nat, next: seq<nat>, step: Step): (r: (Walk, seq<nat>))
    requires key in tree1.tiles && KeysBelow(tree1)
  {
    match step
    case Drop => (w.(tree := tree1), next)
    case Render => (w.(tree := tree1, accepted := w.accepted + [key]), next)
    case Expand =>
      if |tree1.tiles[key].children| == 0 then
        var tree2 := CreateChildren(tree1, key);
        var kids := tree2.tiles[key].children;
        (Walk(tree2, w.cache + kids, w.accepted), next + kids)
      else (w.(tree := tree1), next + tree1.tiles[key].children)
  }

  /** The facts one step of `VisitLevel` hands to the rest of the level. */
  lemma AdvanceOk(w: Walk, tree1: Tree, key: nat, next: seq<nat>, depth: nat, v: View, maxLevel: real, step: Step)
    requires ValidView(v) && ArenaOk(w.tree) && key in w.tree.tiles && w.tree.tiles[key].z == depth
    requires tree1 == StampTile(w.tree, key, v) && AtLevel(w.tree, next, depth + 1)
    requires var t := tree1.tiles[key]; step == StepOf(Decide(v, t.x, t.y, t.z), t.z, maxLevel)
    ensures KeysBelow(tree1)
    ensures var r := Advance(w, tree1, key, next, step);
            ArenaOk(r.0.tree) && TreeGrows(w.tree, r.0.tree, v) && AtLevel(r.0.tree, r.1, depth + 1) &&
            (|r.1| == |next| || (depth as real) < maxLevel)
  {
    StampTileGrows(w.tree, key, v);
    AtLevelGrows(w.tree, tree1, next, depth + 1, v);
    if step == Expand {
      if |tree1.tiles[key].children| == 0 {
        ExpandNew(w.tree, tree1, key, next, depth, v);
      } else {
        ChildrenAtLevel(tree1, key);
        AtLevelAppend(tree1, next, tree1.tiles[key].children, depth + 1);
      }
    }
  }

  lemma ExpandNew(tree: Tree, tree1: Tree, key: nat, next: seq<nat>, depth: nat, v: View)
    requires key in tree1.tiles && ArenaOk(tree1) && tree1.tiles[key].children == [] && tree1.tiles[key].z == depth
    requires TreeGrows(tree, tree1, v) && AtLevel(tree1, next, depth + 1)
    ensures KeysBelow(tree1)
    ensures var tree2 := CreateChildren(tree1, key);
            ArenaOk(tree2) && TreeGrows(tree, tree2, v) && AtLevel(tree2, next + tree2.tiles[key].children, depth + 1)
  {
    var tree2 := CreateChildren(tree1, key);
    CreateChildrenGrows(tree1, key, v);
    TreeGrowsTrans(tree, tree1, tree2, v);
    AtLevelGrows(tree1, tree2, next, depth + 1, v);
    AtLevelAppend(tree2, next, tree2.tiles[key].children, depth + 1);
  }

  lemma AtLevelAppend(tree: Tree, a: seq<nat>, b: seq<nat>, z: nat)
    requires AtLevel(tree, a, z) && AtLevel(tree, b, z)
    ensures AtLevel(tree, a + b, z)
  {
    forall i | 0 <= i < |a + b| ensures (a + b)[i] in tree.tiles && tree.tiles[(a + b)[i]].z == z {
      if i >= |a| { assert (a + b)[i] == b[i - |a|]; }
    }
  }

  /** Every level from `depth` on, until a level leaves nothing to queue. */
  function Traverse(w: Walk, level: seq<nat>, depth: nat, v: View, maxLevel: real): (r: Walk)
    requires ValidView(v) && ArenaOk(w.tree) && AtLevel(w.tree, level, depth)
    ensures ArenaOk(r.tree) && TreeGrows(w.tree, r.tree, v)
    decreases Cap(maxLevel) - depth
  {
    var s := VisitLevel(w, level, [], depth, v, maxLevel);
    if |s.1| == 0 then s.0
    else
      BelowCap(maxLevel, depth);
      var r := Traverse(s.0, s.1, depth + 1, v, maxLevel);
      TreeGrowsTrans(w.tree, s.0.tree, r.tree, v);
      r
  }

  /** `getTilesToRender`: the walk from the root tiles with an emptied list
      of tiles to render. With no root tile the first `queue.shift()` yields
      `undefined` and visiting it throws (`None`). */
  function GetTilesToRender(tree: Tree, cache: seq<nat>, roots: seq<nat>, v: View, maxLevel: real): (r: Option<Walk>)
    requires ValidView(v) && ArenaOk(tree) && AtLevel(tree, roots, 0)
    ensures r.None? <==> |roots| == 0
    ensures r.Some? ==> ArenaOk(r.value.tree) && TreeGrows(tree, r.value.tree, v)
  {
    if |roots| == 0 then None
    else Some(Traverse(Walk(tree, cache, []), roots, 0, v, maxLevel))
  }

  // ---------------------------------------------------------------------
  // What the walk promises.

  /** A tile the walk renders: visited under `v`, and either accepted or
      refining at or past the level cap. */
  predicate Chosen(tree: Tree, k: nat, v: View, maxLevel: real) {
    ValidView(v) && k in tree.tiles &&
    var t := tree.tiles[k];
    Stamped(t, v) && StepOf(Decide(v, t.x, t.y, t.z), t.z, maxLevel) == Render
  }

  /** The tiles to render only grow, and every tile added is chosen. */
  predicate AcceptedExtends(w: Walk, r: Walk, v: View, maxLevel: real) {
    |r.accepted| >= |w.accepted| && r.accepted[..|w.accepted|] == w.accepted &&
    forall i | |w.accepted| <= i < |r.accepted| :: Chosen(r.tree, r.accepted[i], v, maxLevel)
  }

  /** The cache only grows, by tiles created during the walk. */
  predicate CacheExtends(w: Walk, r: Walk) {
    |r.cache| >= |w.cache| && r.cache[..|w.cache|] == w.cache &&
    forall i | |w.cache| <= i < |r.cache| :: r.cache[i] in r.tree.tiles && r.cache[i] >= w.tree.nextKey
  }

  /** The entries the cache gains are distinct, and every tile the walk
      created is among them. */
  predicate CacheExact(w: Walk, r: Walk) {
    |r.cache| >= |w.cache| &&
    (forall i, j | |w.cache| <= i < j < |r.cache| :: r.cache[i] != r.cache[j]) &&
    (forall k | k in r.tree.tiles && k !in w.tree.tiles :: k in r.cache[|w.cache|..])
  }

  /** Tiles the walk creates have fresh keys and hold no layers yet. */
  predicate NewTilesEmpty(t1: Tree, t2: Tree) {
    forall k | k in t2.tiles && k !in t1.tiles :: k >= t1.nextKey && t2.tiles[k].layers == [] && t2.tiles[k].visualizers == []
  }

  lemma ChosenGrows(t1: Tree, t2: Tree, k: nat, v: View, maxLevel: real)
    requires ValidView(v) && Chosen(t1, k, v, maxLevel) && TreeGrows(t1, t2, v)
    ensures Chosen(t2, k, v, maxLevel)
  {
    assert TileGrows(t1.tiles[k], t2.tiles[k], v);
  }

  lemma AcceptedTrans(w1: Walk, w2: Walk, w3: Walk, v: View, maxLevel: real)
    requires ValidView(v) && AcceptedExtends(w1, w2, v, maxLevel) && AcceptedExtends(w2, w3, v, maxLevel)
    requires TreeGrows(w2.tree, w3.tree, v)
    ensures AcceptedExtends(w1, w3, v, maxLevel)
  {
    assert w3.accepted[..|w1.accepted|] == w3.accepted[..|w2.accepted|][..|w1.accepted|];
    forall i | |w1.accepted| <= i < |w3.accepted| ensures Chosen(w3.tree, w3.accepted[i], v, maxLevel) {
      if i < |w2.accepted| {
        assert w3.accepted[i] == w2.accepted[i];
        ChosenGrows(w2.tree, w3.tree, w2.accepted[i], v, maxLevel);
      }
    }
  }

  lemma CacheTrans(w1: Walk, w2: Walk, w3: Walk, v: View)
    requires CacheExtends(w1, w2) && CacheExtends(w2, w3) && TreeGrows(w1.tree, w2.tree, v) && TreeGrows(w2.tree, w3.tree, v)
    ensures CacheExtends(w1, w3)
  {
    assert w3.cache[..|w1.cache|] == w3.cache[..|w2.cache|][..|w1.cache|];
    forall i | |w1.cache| <= i < |w3.cache| ensures w3.cache[i] in w3.tree.tiles && w3.cache[i] >= w1.tree.nextKey {
      if i < |w2.cache| {
        assert w3.cache[i] == w2.cache[i];
      }
    }
  }

  lemma CacheExactTrans(w1: Walk, w2: Walk, w3: Walk, v: View)
    requires CacheExtends(w1, w2) && CacheExtends(w2, w3) && CacheExact(w1, w2) && CacheExact(w2, w3)
    requires TreeGrows(w1.tree, w2.tree, v) && TreeGrows(w2.tree, w3.tree, v) && KeysBelow(w2.tree)
    ensures CacheExact(w1, w3)
  {
    forall i, j | |w1.cache| <= i < j < |w3.cache| ensures w3.cache[i] != w3.cache[j] {
      if j < |w2.cache| {
        assert w3.cache[i] == w2.cache[i] && w3.cache[j] == w2.cache[j];
      } else if i < |w2.cache| {
        assert w3.cache[i] == w2.cache[i] && w2.cache[i] in w2.tree.tiles;
      }
    }
    forall k | k in w3.tree.tiles && k !in w1.tree.tiles ensures k in w3.cache[|w1.cache|..] {
      if k in w2.tree.tiles {
        var i :| 0 <= i < |w2.cache[|w1.cache|..]| && w2.cache[|w1.cache|..][i] == k;
        assert w3.cache[|w1.cache| + i] == w2.cache[|w1.cache| + i];
      } else {
        var i :| 0 <= i < |w3.cache[|w2.cache|..]| && w3.cache[|w2.cache|..][i] == k;
        assert w3.cache[|w1.cache|..][|w2.cache| - |w1.cache| + i] == k;
      }
    }
  }

  lemma NewTilesTrans(t1: Tree, t2: Tree, t3: Tree, v: View)
    requires NewTilesEmpty(t1, t2) && NewTilesEmpty(t2, t3) && TreeGrows(t1, t2, v) && TreeGrows(t2, t3, v)
    ensures NewTilesEmpty(t1, t3)
  {
    forall k | k in t3.tiles && k !in t1.tiles
      ensures k >= t1.nextKey && t3.tiles[k].layers == [] && t3.tiles[k].visualizers == []
    {
      if k in t2.tiles { assert TileGrows(t2.tiles[k], t3.tiles[k], v); }
    }
  }

  /** One visited tile keeps all three promises. */
  lemma AdvanceExtends(w: Walk, tree1: Tree, key: nat, next: seq<nat>, depth: nat, v: View, maxLevel: real, step: Step)
    requires ValidView(v) && ArenaOk(w.tree) && key in w.tree.tiles && w.tree.tiles[key].z == depth
    requires tree1 == StampTile(w.tree, key, v) && AtLevel(w.tree, next, depth + 1)
    requires var t := tree1.tiles[key]; step == StepOf(Decide(v, t.x, t.y, t.z), t.z, maxLevel)
    ensures KeysBelow(tree1)
    ensures var r := Advance(w, tree1, key, next, step);
            AcceptedExtends(w, r.0, v, maxLevel) && CacheExtends(w, r.0) && NewTilesEmpty(w.tree, r.0.tree) &&
            CacheExact(w, r.0)
  {
    StampTileGrows(w.tree, key, v);
    assert KeysBelow(tree1);
    if step == Render {
      RenderExtends(w, tree1, key, next, v, maxLevel);
    } else if step == Expand && |tree1.tiles[key].children| == 0 {
      CreateExtends(w, tree1, key, next, v, maxLevel);
    } else {
      assert Advance(w, tree1, key, next, step).0 == w.(tree := tree1);
    }
  }

  lemma RenderExtends(w: Walk, tree1: Tree, key: nat, next: seq<nat>, v: View, maxLevel: real)
    requires ValidView(v) && key in w.tree.tiles && KeysBelow(w.tree) && tree1 == StampTile(w.tree, key, v)
    requires var t := tree1.tiles[key]; StepOf(Decide(v, t.x, t.y, t.z), t.z, maxLevel) == Render
    ensures KeysBelow(tree1)
    ensures var r := Advance(w, tree1, key, next, Render);
            AcceptedExtends(w, r.0, v, maxLevel) && CacheExtends(w, r.0) && NewTilesEmpty(w.tree, r.0.tree) &&
            CacheExact(w, r.0)
  {
    var r := Advance(w, tree1, key, next, Render);
    assert r.0.accepted == w.accepted + [key];
    assert Chosen(tree1, key, v, maxLevel);
  }

  lemma CreateExtends(w: Walk, tree1: Tree, key: nat, next: seq<nat>, v: View, maxLevel: real)
    requires ValidView(v) && key in w.tree.tiles && KeysBelow(w.tree) && tree1 == StampTile(w.tree, key, v)
    requires tree1.tiles[key].children == []
    ensures KeysBelow(tree1)
    ensures var r := Advance(w, tree1, key, next, Expand);
            AcceptedExtends(w, r.0, v, maxLevel) && CacheExtends(w, r.0) && NewTilesEmpty(w.tree, r.0.tree) &&
            CacheExact(w, r.0)
  {
    var n := tree1.nextKey;
    var t2 := CreateChildren(tree1, key);
    assert t2.tiles[key].children == [n, n + 1, n + 2, n + 3];
    assert Advance(w, tree1, key, next, Expand).0 == Walk(t2, w.cache + [n, n + 1, n + 2, n + 3], w.accepted);
    CreateChildrenEmpty(tree1, key);
    AppendFresh(w, tree1, Walk(t2, w.cache + [n, n + 1, n + 2, n + 3], w.accepted), n, v, maxLevel);
  }

  /** Four fresh keys appended to the cache and to the tree. */
  lemma AppendFresh(w: Walk, tree1: Tree, r: Walk, n: nat, v: View, maxLevel: real)
    requires r.accepted == w.accepted && r.cache == w.cache + [n, n + 1, n + 2, n + 3]
    requires n == tree1.nextKey == w.tree.nextKey && tree1.tiles.Keys == w.tree.tiles.Keys
    requires r.tree.tiles.Keys == tree1.tiles.Keys + {n, n + 1, n + 2, n + 3} && NewTilesEmpty(tree1, r.tree)
    ensures AcceptedExtends(w, r, v, maxLevel) && CacheExtends(w, r) && NewTilesEmpty(w.tree, r.tree) && CacheExact(w, r)
  {
    assert r.accepted[..|w.accepted|] == w.accepted;
    FreshCache(w, r, n);
  }

  lemma FreshCache(w: Walk, r: Walk, n: nat)
    requires r.cache == w.cache + [n, n + 1, n + 2, n + 3] && n >= w.tree.nextKey
    requires r.tree.tiles.Keys == w.tree.tiles.Keys + {n, n + 1, n + 2, n + 3}
    ensures CacheExtends(w, r) && CacheExact(w, r)
  {
    assert r.cache[..|w.cache|] == w.cache;
    assert r.cache[|w.cache|..] == [n, n + 1, n + 2, n + 3];
  }

  /** The four children are new, with keys from `nextKey` on, and empty. */
  lemma CreateChildrenEmpty(tree: Tree, key: nat)
    requires key in tree.tiles && KeysBelow(tree)
    ensures NewTilesEmpty(tree, CreateChildren(tree, key))
  {
    var r := CreateChildren(tree, key);
    var n := tree.nextKey;
    forall k | k in r.tiles && k !in tree.tiles
      ensures k >= n && r.tiles[k].layers == [] && r.tiles[k].visualizers == []
    {
      assert k == n || k == n + 1 || k == n + 2 || k == n + 3;
    }
  }

  /** `VisitLevel` keeps all three promises. */
  lemma {:induction false} VisitLevelExtends(w: Walk, level: seq<nat>, next: seq<nat>, depth: nat, v: View, maxLevel: real)
    requires ValidView(v) && ArenaOk(w.tree) && AtLevel(w.tree, level, depth) && AtLevel(w.tree, next, depth + 1)
    ensures var r := VisitLevel(w, level, next, depth, v, maxLevel);
            AcceptedExtends(w, r.0, v, maxLevel) && CacheExtends(w, r.0) && NewTilesEmpty(w.tree, r.0.tree) &&
            CacheExact(w, r.0)
    decreases |level|
  {
    if |level| > 0 {
      VisitFirst(w, level, next, depth, v, maxLevel);
      var key := level[0];
      var tree1 := StampTile(w.tree, key, v);
      var t := tree1.tiles[key];
      var step := StepOf(Decide(v, t.x, t.y, t.z), t.z, maxLevel);
      AdvanceExtends(w, tree1, key, next, depth, v, maxLevel, step);
      var adv := Advance(w, tree1, key, next, step);
      assert adv == FirstAdvance(w, level, next, v, maxLevel);
      VisitLevelExtends(adv.0, level[1..], adv.1, depth, v, maxLevel);
      var r := VisitLevel(adv.0, level[1..], adv.1, depth, v, maxLevel);
      assert VisitLevel(w, level, next, depth, v, maxLevel) == r;
      ExtendsTrans(w, adv.0, r.0, v, maxLevel);
    }
  }

  /** The three promises compose. */
  lemma ExtendsTrans(w1: Walk, w2: Walk, w3: Walk, v: View, maxLevel: real)
    requires ValidView(v) && ArenaOk(w2.tree) && TreeGrows(w1.tree, w2.tree, v) && TreeGrows(w2.tree, w3.tree, v)
    requires AcceptedExtends(w1, w2, v, maxLevel) && CacheExtends(w1, w2) && NewTilesEmpty(w1.tree, w2.tree) && CacheExact(w1, w2)
    requires AcceptedExtends(w2, w3, v, maxLevel) && CacheExtends(w2, w3) && NewTilesEmpty(w2.tree, w3.tree) && CacheExact(w2, w3)
    ensures AcceptedExtends(w1, w3, v, maxLevel) && CacheExtends(w1, w3) && NewTilesEmpty(w1.tree, w3.tree) && CacheExact(w1, w3)
  {
    AcceptedTrans(w1, w2, w3, v, maxLevel);
    CacheTrans(w1, w2, w3, v);
    assert KeysBelow(w2.tree) by {
      forall k | k in w2.tree.tiles ensures k < w2.tree.nextKey {
        assert NodeOk(w2.tree, k);
      }
    }
    CacheExactTrans(w1, w2, w3, v);
    NewTilesTrans(w1.tree, w2.tree, w3.tree, v);
  }

  /** The whole walk keeps all three promises. */
  lemma {:induction false} TraverseExtends(w: Walk, level: seq<nat>, depth: nat, v: View, maxLevel: real)
    requires ValidView(v) && ArenaOk(w.tree) && AtLevel(w.tree, level, depth)
    ensures var r := Traverse(w, level, depth, v, maxLevel);
            AcceptedExtends(w, r, v, maxLevel) && CacheExtends(w, r) && NewTilesEmpty(w.tree, r.tree) &&
            CacheExact(w, r)
    decreases Cap(maxLevel) - depth
  {
    VisitLevelExtends(w, level, [], depth, v, maxLevel);
    var s := VisitLevel(w, level, [], depth, v, maxLevel);
    if |s.1| > 0 {
      BelowCap(maxLevel, depth);
      TraverseExtends(s.0, s.1, depth + 1, v, maxLevel);
      var r := Traverse(s.0, s.1, depth + 1, v, maxLevel);
      AcceptedTrans(w, s.0, r, v, maxLevel);
      CacheTrans(w, s.0, r, v);
      CacheExactTrans(w, s.0, r, v);
      NewTilesTrans(w.tree, s.0.tree, r.tree, v);
    }
  }

  /** `getTilesToRender` renders only chosen tiles, appends to the cache
      exactly the tiles it creates, each once, and creates only empty tiles
      with fresh keys. */
  lemma GetTilesToRenderSound(tree: Tree, cache: seq<nat>, roots: seq<nat>, v: View, maxLevel: real)
    requires ValidView(v) && ArenaOk(tree) && AtLevel(tree, roots, 0) && |roots| > 0
    ensures var r := GetTilesToRender(tree, cache, roots, v, maxLevel).value;
            (forall i | 0 <= i < |r.accepted| :: Chosen(r.tree, r.accepted[i], v, maxLevel)) &&
            CacheExtends(Walk(tree, cache, []), r) && NewTilesEmpty(tree, r.tree)
    ensures var r := GetTilesToRender(tree, cache, roots, v, maxLevel).value;
            (set i | |cache| <= i < |r.cache| :: r.cache[i]) == r.tree.tiles.Keys - tree.tiles.Keys &&
            forall i, j | |cache| <= i < j < |r.cache| :: r.cache[i] != r.cache[j]
  {
    var w := Walk(tree, cache, []);
    TraverseExtends(w, roots, 0, v, maxLevel);
    CacheAddsNewTiles(w, Traverse(w, roots, 0, v, maxLevel));
  }

  /** The entries a walk adds to the cache are the keys it created. */
  lemma CacheAddsNewTiles(w: Walk, r: Walk)
    requires CacheExtends(w, r) && CacheExact(w, r) && KeysBelow(w.tree)
    ensures (set i | |w.cache| <= i < |r.cache| :: r.cache[i]) == r.tree.tiles.Keys - w.tree.tiles.Keys
  {
    var added := set i | |w.cache| <= i < |r.cache| :: r.cache[i];
    forall k | k in added ensures k in r.tree.tiles && k !in w.tree.tiles {
      var i :| |w.cache| <= i < |r.cache| && r.cache[i] == k;
    }
    forall k | k in r.tree.tiles && k !in w.tree.tiles ensures k in added {
      var i :| 0 <= i < |r.cache[|w.cache|..]| && r.cache[|w.cache|..][i] == k;
      assert r.cache[|w.cache| + i] == k;
    }
  }

  /** Tiles that all render as soon as they are visited. */
  predicate AllRender(tree: Tree, keys: seq<nat>, v: View, maxLevel: real) {
    ValidView(v) &&
    forall i | 0 <= i < |keys| ::
      keys[i] in tree.tiles &&
      StepOf(Decide(v, tree.tiles[keys[i]].x, tree.tiles[keys[i]].y, tree.tiles[keys[i]].z), tree.tiles[keys[i]].z, maxLevel) == Render
  }

  lemma AllRenderGrows(t1: Tree, t2: Tree, keys: seq<nat>, v: View, maxLevel: real)
    requires AllRender(t1, keys, v, maxLevel) && TreeGrows(t1, t2, v)
    ensures AllRender(t2, keys, v, maxLevel)
  {
    forall i | 0 <= i < |keys|
      ensures keys[i] in t2.tiles &&
              StepOf(Decide(v, t2.tiles[keys[i]].x, t2.tiles[keys[i]].y, t2.tiles[keys[i]].z), t2.tiles[keys[i]].z, maxLevel) == Render
    {
      assert TileGrows(t1.tiles[keys[i]], t2.tiles[keys[i]], v);
    }
  }

  /** A level whose tiles all render queues nothing and renders them in order. */
  lemma {:induction false} VisitLevelAllRender(w: Walk, level: seq<nat>, next: seq<nat>, depth: nat, v: View, maxLevel: real)
    requires ValidView(v) && ArenaOk(w.tree) && AtLevel(w.tree, level, depth) && AtLevel(w.tree, next, depth + 1)
    requires AllRender(w.tree, level, v, maxLevel)
    ensures var r := VisitLevel(w, level, next, depth, v, maxLevel);
            r.1 == next && r.0.accepted == w.accepted + level
    decreases |level|
  {
    if |level| > 0 {
      var w' := w.(tree := StampTile(w.tree, level[0], v), accepted := w.accepted + [level[0]]);
      RenderFirst(w, level, next, depth, v, maxLevel);
      VisitLevelAllRender(w', level[1..], next, depth, v, maxLevel);
      ConsFirst(w.accepted, level);
    } else {
      assert w.accepted + level == w.accepted;
    }
  }

  lemma ConsFirst(a: seq<nat>, s: seq<nat>)
    requires |s| > 0
    ensures (a + [s[0]]) + s[1..] == a + s
  {
    assert s == [s[0]] + s[1..];
  }

  /** The first tile of a level that renders: what the rest of the level starts from. */
  lemma RenderFirst(w: Walk, level: seq<nat>, next: seq<nat>, depth: nat, v: View, maxLevel: real)
    requires ValidView(v) && ArenaOk(w.tree) && AtLevel(w.tree, level, depth) && AtLevel(w.tree, next, depth + 1)
    requires |level| > 0 && AllRender(w.tree, level, v, maxLevel)
    ensures level[0] in w.tree.tiles
    ensures var w' := w.(tree := StampTile(w.tree, level[0], v), accepted := w.accepted + [level[0]]);
            ArenaOk(w'.tree) && AtLevel(w'.tree, level[1..], depth) && AtLevel(w'.tree, next, depth + 1) &&
            AllRender(w'.tree, level[1..], v, maxLevel) &&
            VisitLevel(w, level, next, depth, v, maxLevel) == VisitLevel(w', level[1..], next, depth, v, maxLevel)
  {
    var key := level[0];
    var tree1 := StampTile(w.tree, key, v);
    FirstRenders(w.tree, level, v, maxLevel);
    StampTileGrows(w.tree, key, v);
    assert Advance(w, tree1, key, next, Render) == (w.(tree := tree1, accepted := w.accepted + [key]), next);
    AtLevelGrows(w.tree, tree1, level[1..], depth, v);
    AtLevelGrows(w.tree, tree1, next, depth + 1, v);
    AllRenderGrows(w.tree, tree1, level[1..], v, maxLevel);
  }

  lemma FirstRenders(tree: Tree, level: seq<nat>, v: View, maxLevel: real)
    requires ValidView(v) && |level| > 0 && AllRender(tree, level, v, maxLevel)
    ensures level[0] in tree.tiles
    ensures var t := StampTile(tree, level[0], v).tiles[level[0]];
            StepOf(Decide(v, t.x, t.y, t.z), t.z, maxLevel) == Render
  {
  }

  /** When every root tile renders as it stands, the tiles to render are
      exactly the root tiles, in order. */
  lemma RootsRenderAlone(tree: Tree, cache: seq<nat>, roots: seq<nat>, v: View, maxLevel: real)
    requires ValidView(v) && ArenaOk(tree) && AtLevel(tree, roots, 0) && |roots| > 0
    requires AllRender(tree, roots, v, maxLevel)
    ensures GetTilesToRender(tree, cache, roots, v, maxLevel).value.accepted == roots
  {
    var w := Walk(tree, cache, []);
    VisitLevelAllRender(w, roots, [], 0, v, maxLevel);
    TraverseStep(w, roots, 0, v, maxLevel);
    assert w.accepted + roots == roots;
  }

  // ---------------------------------------------------------------------
  // Completeness: every tile the walk reaches and that renders is rendered.

  /** What `visit` leads to for tile `k` of `tree`. It depends on the
      tile's position only, so recording visits does not change it. */
  function StepIn(tree: Tree, k: nat, v: View, maxLevel: real): Step
    requires ValidView(v) && k in tree.tiles
  {
    var t := tree.tiles[k];
    StepOf(Decide(v, t.x, t.y, t.z), t.z, maxLevel)
  }

  /** `path` runs down `tree` from a tile of `level`: each tile on it but
      the last refines, and the next one is among its children. */
  predicate Path(tree: Tree, level: seq<nat>, path: seq<nat>, v: View, maxLevel: real) {
    ValidView(v) && |path| > 0 && path[0] in level &&
    forall i | 0 <= i < |path| - 1 ::
      path[i] in tree.tiles && StepIn(tree, path[i], v, maxLevel) == Expand && path[i + 1] in tree.tiles[path[i]].children
  }

  /** `b` begins with `a`. */
  predicate Prefix(a: seq<nat>, b: seq<nat>) {
    |a| <= |b| && b[..|a|] == a
  }

  lemma PrefixTrans(a: seq<nat>, b: seq<nat>, c: seq<nat>)
    requires Prefix(a, b) && Prefix(b, c)
    ensures Prefix(a, c)
  {
    assert c[..|a|] == c[..|b|][..|a|];
  }

  lemma PrefixIn(a: seq<nat>, b: seq<nat>, x: nat)
    requires Prefix(a, b) && x in a
    ensures x in b
  {
    var i :| 0 <= i < |a| && a[i] == x;
    assert b[..|a|][i] == x;
  }

  /** Tile `k` has been dealt with by the walk state `w` whose next level
      so far is `next`: rendered if it renders, its children queued if it
      refines. */
  predicate Done(w: Walk, next: seq<nat>, k: nat, v: View, maxLevel: real) {
    ValidView(v) && k in w.tree.tiles &&
    (StepIn(w.tree, k, v, maxLevel) == Render ==> k in w.accepted) &&
    (StepIn(w.tree, k, v, maxLevel) == Expand ==>
       |w.tree.tiles[k].children| > 0 && forall c | c in w.tree.tiles[k].children :: c in next)
  }

  /** A tile dealt with stays dealt with as the walk goes on. */
  lemma DonePersists(w1: Walk, n1: seq<nat>, w2: Walk, n2: seq<nat>, k: nat, v: View, maxLevel: real)
    requires Done(w1, n1, k, v, maxLevel) && TreeGrows(w1.tree, w2.tree, v)
    requires Prefix(w1.accepted, w2.accepted) && Prefix(n1, n2)
    ensures Done(w2, n2, k, v, maxLevel)
  {
    var a := w1.tree.tiles[k];
    var b := w2.tree.tiles[k];
    assert TileGrows(a, b, v);
    assert b.x == a.x && b.y == a.y && b.z == a.z;
    var step := StepIn(w1.tree, k, v, maxLevel);
    assert StepIn(w2.tree, k, v, maxLevel) == step;
    if step == Render {
      PrefixIn(w1.accepted, w2.accepted, k);
    } else if step == Expand {
      assert b.children == a.children;
      forall c | c in b.children ensures c in n2 {
        PrefixIn(n1, n2, c);
      }
    }
  }

  /** One visited tile is dealt with. */
  lemma AdvanceDone(w: Walk, tree1: Tree, key: nat, next: seq<nat>, v: View, maxLevel: real, step: Step)
    requires ValidView(v) && key in w.tree.tiles && KeysBelow(w.tree) && tree1 == StampTile(w.tree, key, v)
    requires step == StepIn(tree1, key, v, maxLevel)
    ensures KeysBelow(tree1)
    ensures var r := Advance(w, tree1, key, next, step);
            Done(r.0, r.1, key, v, maxLevel) && Prefix(w.accepted, r.0.accepted) && Prefix(next, r.1)
  {
    var r := Advance(w, tree1, key, next, step);
    assert w.accepted[..|w.accepted|] == w.accepted && next[..|next|] == next;
    if step == Render {
      assert r.0.accepted == w.accepted + [key] && r.0.tree == tree1;
      assert r.0.accepted[..|w.accepted|] == w.accepted;
    } else if step == Expand {
      var kids := if |tree1.tiles[key].children| == 0 then CreateChildren(tree1, key).tiles[key].children
                  else tree1.tiles[key].children;
      assert r.1 == next + kids && r.0.accepted == w.accepted;
      assert r.0.tree.tiles[key] == tree1.tiles[key].(children := kids);
      assert |kids| > 0;
      assert r.1[..|next|] == next;
      forall c | c in kids ensures c in r.1 {
        var i :| 0 <= i < |kids| && kids[i] == c;
        assert r.1[|next| + i] == c;
      }
    }
  }

  /** `VisitLevel` deals with every tile of the level. */
  lemma {:induction false} VisitLevelDone(w: Walk, level: seq<nat>, next: seq<nat>, depth: nat, v: View, maxLevel: real)
    requires ValidView(v) && ArenaOk(w.tree) && AtLevel(w.tree, level, depth) && AtLevel(w.tree, next, depth + 1)
    ensures var r := VisitLevel(w, level, next, depth, v, maxLevel);
            Prefix(w.accepted, r.0.accepted) && Prefix(next, r.1) &&
            forall i | 0 <= i < |level| :: Done(r.0, r.1, level[i], v, maxLevel)
    decreases |level|
  {
    if |level| == 0 {
      assert w.accepted[..|w.accepted|] == w.accepted && next[..|next|] == next;
    } else {
      var key := level[0];
      var tree1 := StampTile(w.tree, key, v);
      StampTileGrows(w.tree, key, v);
      var step := StepIn(tree1, key, v, maxLevel);
      AdvanceOk(w, tree1, key, next, depth, v, maxLevel, step);
      AdvanceDone(w, tree1, key, next, v, maxLevel, step);
      var adv := Advance(w, tree1, key, next, step);
      AtLevelGrows(w.tree, adv.0.tree, level[1..], depth, v);
      VisitLevelDone(adv.0, level[1..], adv.1, depth, v, maxLevel);
      var r := VisitLevel(adv.0, level[1..], adv.1, depth, v, maxLevel);
      assert VisitLevel(w, level, next, depth, v, maxLevel) == r;
      PrefixTrans(w.accepted, adv.0.accepted, r.0.accepted);
      PrefixTrans(next, adv.1, r.1);
      DonePersists(adv.0, adv.1, r.0, r.1, key, v, maxLevel);
      DoneCons(r.0, r.1, level, v, maxLevel);
    }
  }

  lemma DoneCons(r: Walk, next: seq<nat>, level: seq<nat>, v: View, maxLevel: real)
    requires |level| > 0 && Done(r, next, level[0], v, maxLevel)
    requires forall i | 0 <= i < |level[1..]| :: Done(r, next, level[1..][i], v, maxLevel)
    ensures forall i | 0 <= i < |level| :: Done(r, next, level[i], v, maxLevel)
  {
    forall i | 0 <= i < |level| ensures Done(r, next, level[i], v, maxLevel) {
      if i > 0 { assert level[i] == level[1..][i - 1]; }
    }
  }

  /** The whole walk only adds to the tiles to render. */
  lemma {:induction false} TraversePrefix(w: Walk, level: seq<nat>, depth: nat, v: View, maxLevel: real)
    requires ValidView(v) && ArenaOk(w.tree) && AtLevel(w.tree, level, depth)
    ensures Prefix(w.accepted, Traverse(w, level, depth, v, maxLevel).accepted)
    decreases Cap(maxLevel) - depth
  {
    VisitLevelDone(w, level, [], depth, v, maxLevel);
    var s := VisitLevel(w, level, [], depth, v, maxLevel);
    if |s.1| > 0 {
      BelowCap(maxLevel, depth);
      TraversePrefix(s.0, s.1, depth + 1, v, maxLevel);
      PrefixTrans(w.accepted, s.0.accepted, Traverse(s.0, s.1, depth + 1, v, maxLevel).accepted);
    }
  }

  /** One unfolding of `Traverse`. */
  lemma TraverseStep(w: Walk, level: seq<nat>, depth: nat, v: View, maxLevel: real)
    requires ValidView(v) && ArenaOk(w.tree) && AtLevel(w.tree, level, depth)
    ensures var s := VisitLevel(w, level, [], depth, v, maxLevel);
            ArenaOk(s.0.tree) && AtLevel(s.0.tree, s.1, depth + 1) && (|s.1| > 0 ==> depth < Cap(maxLevel)) &&
            Traverse(w, level, depth, v, maxLevel) == if |s.1| == 0 then s.0 else Traverse(s.0, s.1, depth + 1, v, maxLevel)
  {
    var s := VisitLevel(w, level, [], depth, v, maxLevel);
    if |s.1| > 0 {
      BelowCap(maxLevel, depth);
    }
  }

  /** The tiles of the first level are dealt with in the walk's final state `r`. */
  lemma TraverseDone(w: Walk, level: seq<nat>, depth: nat, v: View, maxLevel: real, r: Walk, next: seq<nat>)
    requires ValidView(v) && ArenaOk(w.tree) && AtLevel(w.tree, level, depth)
    requires r == Traverse(w, level, depth, v, maxLevel) && next == VisitLevel(w, level, [], depth, v, maxLevel).1
    ensures forall x | x in level :: Done(r, next, x, v, maxLevel)
  {
    VisitLevelDone(w, level, [], depth, v, maxLevel);
    var s := VisitLevel(w, level, [], depth, v, maxLevel);
    TraverseLater(w, level, depth, v, maxLevel, s, r);
    DoneAllLater(s.0, s.1, level, r, v, maxLevel);
  }

  /** The walk's final state `r` only adds to the state `s` after the first
      level. */
  lemma TraverseLater(w: Walk, level: seq<nat>, depth: nat, v: View, maxLevel: real, s: (Walk, seq<nat>), r: Walk)
    requires ValidView(v) && ArenaOk(w.tree) && AtLevel(w.tree, level, depth)
    requires s == VisitLevel(w, level, [], depth, v, maxLevel) && r == Traverse(w, level, depth, v, maxLevel)
    ensures r == s.0 || (TreeGrows(s.0.tree, r.tree, v) && Prefix(s.0.accepted, r.accepted))
  {
    TraverseStep(w, level, depth, v, maxLevel);
    if |s.1| > 0 {
      TraversePrefix(s.0, s.1, depth + 1, v, maxLevel);
    }
  }

  lemma DoneAllLater(s0: Walk, s1: seq<nat>, level: seq<nat>, r: Walk, v: View, maxLevel: real)
    requires forall i | 0 <= i < |level| :: Done(s0, s1, level[i], v, maxLevel)
    requires r == s0 || (TreeGrows(s0.tree, r.tree, v) && Prefix(s0.accepted, r.accepted))
    ensures forall x | x in level :: Done(r, s1, x, v, maxLevel)
  {
    forall x | x in level ensures Done(r, s1, x, v, maxLevel) {
      DoneLater(s0, s1, level, r, x, v, maxLevel);
    }
  }

  lemma DoneLater(s0: Walk, s1: seq<nat>, level: seq<nat>, r: Walk, x: nat, v: View, maxLevel: real)
    requires forall i | 0 <= i < |level| :: Done(s0, s1, level[i], v, maxLevel)
    requires x in level && (r == s0 || (TreeGrows(s0.tree, r.tree, v) && Prefix(s0.accepted, r.accepted)))
    ensures Done(r, s1, x, v, maxLevel)
  {
    var i :| 0 <= i < |level| && level[i] == x;
    if r != s0 {
      assert s1[..|s1|] == s1;
      DonePersists(s0, s1, r, s1, x, v, maxLevel);
    }
  }

  /** Every tile at the end of a path from `level` that renders is
      rendered by the walk, whose final state is `r`. */
  lemma {:induction false} TraverseReaches(w: Walk, level: seq<nat>, depth: nat, v: View, maxLevel: real, r: Walk, path: seq<nat>)
    requires ValidView(v) && ArenaOk(w.tree) && AtLevel(w.tree, level, depth) && r == Traverse(w, level, depth, v, maxLevel)
    requires Path(r.tree, level, path, v, maxLevel)
    requires var k := path[|path| - 1]; k in r.tree.tiles && StepIn(r.tree, k, v, maxLevel) == Render
    ensures path[|path| - 1] in r.accepted
    decreases |path|
  {
    TraverseStep(w, level, depth, v, maxLevel);
    var s := VisitLevel(w, level, [], depth, v, maxLevel);
    TraverseDone(w, level, depth, v, maxLevel, r, s.1);
    PathNext(r, s.1, level, path, v, maxLevel);
    if |path| > 1 {
      assert path[1..][|path| - 2] == path[|path| - 1];
      TraverseReaches(s.0, s.1, depth + 1, v, maxLevel, r, path[1..]);
    }
  }

  /** In a state where every tile of `level` has been dealt with, the end
      of a path from `level` that renders is rendered, or the rest of the
      path runs from `next`. */
  lemma PathNext(r: Walk, next: seq<nat>, level: seq<nat>, path: seq<nat>, v: View, maxLevel: real)
    requires ValidView(v) && forall x | x in level :: Done(r, next, x, v, maxLevel)
    requires Path(r.tree, level, path, v, maxLevel)
    requires var k := path[|path| - 1]; k in r.tree.tiles && StepIn(r.tree, k, v, maxLevel) == Render
    ensures |path| == 1 ==> path[0] in r.accepted
    ensures |path| > 1 ==> |next| > 0 && Path(r.tree, next, path[1..], v, maxLevel)
  {
    assert Done(r, next, path[0], v, maxLevel);
    if |path| > 1 {
      assert StepIn(r.tree, path[0], v, maxLevel) == Expand && path[1] in r.tree.tiles[path[0]].children;
      assert path[1] in next;
      var rest := path[1..];
      forall i | 0 <= i < |rest| - 1
        ensures rest[i] in r.tree.tiles && StepIn(r.tree, rest[i], v, maxLevel) == Expand && rest[i + 1] in r.tree.tiles[rest[i]].children
      {
        assert rest[i] == path[i + 1] && rest[i + 1] == path[i + 2];
      }
    }
  }

  /** `getTilesToRender` is complete: the tile at the end of any path
      down from a root tile through refining tiles is among the tiles to
      render if its own step is to render. */
  lemma GetTilesToRenderComplete(tree: Tree, cache: seq<nat>, roots: seq<nat>, v: View, maxLevel: real, path: seq<nat>)
    requires ValidView(v) && ArenaOk(tree) && AtLevel(tree, roots, 0) && |roots| > 0
    requires var r := GetTilesToRender(tree, cache, roots, v, maxLevel).value;
             Path(r.tree, roots, path, v, maxLevel) &&
             var k := path[|path| - 1]; k in r.tree.tiles && StepIn(r.tree, k, v, maxLevel) == Render
    ensures path[|path| - 1] in GetTilesToRender(tree, cache, roots, v, maxLevel).value.accepted
  {
    TraverseReaches(Walk(tree, cache, []), roots, 0, v, maxLevel, GetTilesToRender(tree, cache, roots, v, maxLevel).value, path);
  }

  // ---------------------------------------------------------------------
  // The converse: every tile rendered is at the end of such a path.

  /** Tile `k` is at the end of a path down from `roots`. */
  ghost predicate Reached(tree: Tree, roots: seq<nat>, k: nat, v: View, maxLevel: real) {
    exists path | Path(tree, roots, path, v, maxLevel) :: path[|path| - 1] == k
  }

  ghost predicate AllReached(tree: Tree, roots: seq<nat>, keys: seq<nat>, v: View, maxLevel: real) {
    forall x | x in keys :: Reached(tree, roots, x, v, maxLevel)
  }

  /** A path stays a path as the walk goes on: the tiles on it that refine
      already have children, which therefore do not change. */
  lemma PathGrows(t1: Tree, t2: Tree, roots: seq<nat>, path: seq<nat>, v: View, maxLevel: real)
    requires Path(t1, roots, path, v, maxLevel) && TreeGrows(t1, t2, v)
    ensures Path(t2, roots, path, v, maxLevel)
  {
    forall i | 0 <= i < |path| - 1
      ensures path[i] in t2.tiles && StepIn(t2, path[i], v, maxLevel) == Expand && path[i + 1] in t2.tiles[path[i]].children
    {
      var a := t1.tiles[path[i]];
      assert TileGrows(a, t2.tiles[path[i]], v);
      assert path[i + 1] in a.children;
    }
  }

  lemma AllReachedGrows(t1: Tree, t2: Tree, roots: seq<nat>, keys: seq<nat>, v: View, maxLevel: real)
    requires AllReached(t1, roots, keys, v, maxLevel) && TreeGrows(t1, t2, v)
    ensures AllReached(t2, roots, keys, v, maxLevel)
  {
    forall x | x in keys ensures Reached(t2, roots, x, v, maxLevel) {
      var path :| Path(t1, roots, path, v, maxLevel) && path[|path| - 1] == x;
      PathGrows(t1, t2, roots, path, v, maxLevel);
    }
  }

  /** The children of a reached tile that refines are reached. */
  lemma ChildrenReached(tree: Tree, roots: seq<nat>, p: nat, v: View, maxLevel: real)
    requires Reached(tree, roots, p, v, maxLevel) && p in tree.tiles && StepIn(tree, p, v, maxLevel) == Expand
    ensures AllReached(tree, roots, tree.tiles[p].children, v, maxLevel)
  {
    var path :| Path(tree, roots, path, v, maxLevel) && path[|path| - 1] == p;
    forall c | c in tree.tiles[p].children ensures Reached(tree, roots, c, v, maxLevel) {
      var ext := path + [c];
      forall i | 0 <= i < |ext| - 1
        ensures ext[i] in tree.tiles && StepIn(tree, ext[i], v, maxLevel) == Expand && ext[i + 1] in tree.tiles[ext[i]].children
      {
        assert ext[i] == path[i];
        if i + 1 < |path| { assert ext[i + 1] == path[i + 1]; }
      }
      assert Path(tree, roots, ext, v, maxLevel);
    }
  }

  lemma AllReachedAppend(tree: Tree, roots: seq<nat>, a: seq<nat>, b: seq<nat>, v: View, maxLevel: real)
    requires AllReached(tree, roots, a, v, maxLevel) && AllReached(tree, roots, b, v, maxLevel)
    ensures AllReached(tree, roots, a + b, v, maxLevel)
  {
  }

  /** One visited tile of a reached level queues and renders reached tiles only. */
  lemma AdvanceReached(w: Walk, tree1: Tree, key: nat, next: seq<nat>, depth: nat, v: View, maxLevel: real, step: Step, roots: seq<nat>)
    requires ValidView(v) && ArenaOk(w.tree) && key in w.tree.tiles && w.tree.tiles[key].z == depth
    requires tree1 == StampTile(w.tree, key, v) && AtLevel(w.tree, next, depth + 1)
    requires step == StepIn(tree1, key, v, maxLevel)
    requires Reached(w.tree, roots, key, v, maxLevel) && AllReached(w.tree, roots, next, v, maxLevel)
    ensures KeysBelow(tree1)
    ensures var r := Advance(w, tree1, key, next, step);
            AllReached(r.0.tree, roots, r.1, v, maxLevel) &&
            |r.0.accepted| >= |w.accepted| && AllReached(r.0.tree, roots, r.0.accepted[|w.accepted|..], v, maxLevel)
  {
    AdvanceOk(w, tree1, key, next, depth, v, maxLevel, step);
    AdvanceDone(w, tree1, key, next, v, maxLevel, step);
    var r := Advance(w, tree1, key, next, step);
    AllReachedGrows(w.tree, r.0.tree, roots, [key] + next, v, maxLevel);
    assert key in [key] + next;
    if step == Render {
      assert r.0.accepted[|w.accepted|..] == [key];
    } else {
      assert r.0.accepted[|w.accepted|..] == [];
    }
    if step == Expand {
      var kids := r.0.tree.tiles[key].children;
      assert r.1 == next + kids;
      ChildrenReached(r.0.tree, roots, key, v, maxLevel);
      AllReachedAppend(r.0.tree, roots, next, kids, v, maxLevel);
    }
  }

  /** New tiles to render reached in `t1` and then in `t2` are all reached
      in `t2`. */
  lemma AcceptedReached(t1: Tree, t2: Tree, roots: seq<nat>, a0: seq<nat>, a1: seq<nat>, a2: seq<nat>, v: View, maxLevel: real)
    requires Prefix(a0, a1) && Prefix(a1, a2) && TreeGrows(t1, t2, v)
    requires AllReached(t1, roots, a1[|a0|..], v, maxLevel) && AllReached(t2, roots, a2[|a1|..], v, maxLevel)
    ensures AllReached(t2, roots, a2[|a0|..], v, maxLevel)
  {
    AllReachedGrows(t1, t2, roots, a1[|a0|..], v, maxLevel);
    forall x | x in a2[|a0|..] ensures Reached(t2, roots, x, v, maxLevel) {
      var j :| 0 <= j < |a2[|a0|..]| && a2[|a0|..][j] == x;
      if |a0| + j < |a1| {
        assert a1[|a0|..][j] == a2[..|a1|][|a0| + j];
      } else {
        assert a2[|a1|..][|a0| + j - |a1|] == x;
      }
    }
  }

  /** `VisitLevel` from a reached level queues and renders reached tiles only. */
  lemma {:induction false} VisitLevelReached(w: Walk, level: seq<nat>, next: seq<nat>, depth: nat, v: View, maxLevel: real, roots: seq<nat>)
    requires ValidView(v) && ArenaOk(w.tree) && AtLevel(w.tree, level, depth) && AtLevel(w.tree, next, depth + 1)
    requires AllReached(w.tree, roots, level, v, maxLevel) && AllReached(w.tree, roots, next, v, maxLevel)
    ensures var r := VisitLevel(w, level, next, depth, v, maxLevel);
            AllReached(r.0.tree, roots, r.1, v, maxLevel) &&
            |r.0.accepted| >= |w.accepted| && AllReached(r.0.tree, roots, r.0.accepted[|w.accepted|..], v, maxLevel)
    decreases |level|
  {
    if |level| == 0 {
      assert w.accepted[|w.accepted|..] == [];
    } else {
      var key := level[0];
      var tree1 := StampTile(w.tree, key, v);
      StampTileGrows(w.tree, key, v);
      var step := StepIn(tree1, key, v, maxLevel);
      AdvanceOk(w, tree1, key, next, depth, v, maxLevel, step);
      AdvanceDone(w, tree1, key, next, v, maxLevel, step);
      AdvanceReached(w, tree1, key, next, depth, v, maxLevel, step, roots);
      var adv := Advance(w, tree1, key, next, step);
      AtLevelGrows(w.tree, adv.0.tree, level[1..], depth, v);
      AllReachedGrows(w.tree, adv.0.tree, roots, level[1..], v, maxLevel);
      VisitLevelReached(adv.0, level[1..], adv.1, depth, v, maxLevel, roots);
      VisitLevelDone(adv.0, level[1..], adv.1, depth, v, maxLevel);
      var r := VisitLevel(adv.0, level[1..], adv.1, depth, v, maxLevel);
      assert VisitLevel(w, level, next, depth, v, maxLevel) == r;
      AcceptedReached(adv.0.tree, r.0.tree, roots, w.accepted, adv.0.accepted, r.0.accepted, v, maxLevel);
    }
  }

  /** The whole walk from a reached level renders reached tiles only. */
  lemma {:induction false} TraverseReached(w: Walk, level: seq<nat>, depth: nat, v: View, maxLevel: real, roots: seq<nat>)
    requires ValidView(v) && ArenaOk(w.tree) && AtLevel(w.tree, level, depth)
    requires AllReached(w.tree, roots, level, v, maxLevel)
    ensures var r := Traverse(w, level, depth, v, maxLevel);
            |r.accepted| >= |w.accepted| && AllReached(r.tree, roots, r.accepted[|w.accepted|..], v, maxLevel)
    decreases Cap(maxLevel) - depth
  {
    TraverseStep(w, level, depth, v, maxLevel);
    VisitLevelReached(w, level, [], depth, v, maxLevel, roots);
    VisitLevelDone(w, level, [], depth, v, maxLevel);
    var s := VisitLevel(w, level, [], depth, v, maxLevel);
    if |s.1| > 0 {
      TraverseReached(s.0, s.1, depth + 1, v, maxLevel, roots);
      TraversePrefix(s.0, s.1, depth + 1, v, maxLevel);
      var r := Traverse(s.0, s.1, depth + 1, v, maxLevel);
      AcceptedReached(s.0.tree, r.tree, roots, w.accepted, s.0.accepted, r.accepted, v, maxLevel);
    }
  }

  /** Each root tile is reached, by the path holding it alone. */
  lemma RootsReached(tree: Tree, roots: seq<nat>, v: View, maxLevel: real)
    requires ValidView(v)
    ensures AllReached(tree, roots, roots, v, maxLevel)
  {
    forall x | x in roots ensures Reached(tree, roots, x, v, maxLevel) {
      assert Path(tree, roots, [x], v, maxLevel);
    }
  }

  /** `getTilesToRender` renders nothing but the ends of paths down from
      the root tiles; with `GetTilesToRenderComplete` and the soundness
      lemma, the tiles to render are exactly the ends of such paths whose
      own step is to render. */
  lemma GetTilesToRenderOnlyReached(tree: Tree, cache: seq<nat>, roots: seq<nat>, v: View, maxLevel: real)
    requires ValidView(v) && ArenaOk(tree) && AtLevel(tree, roots, 0) && |roots| > 0
    ensures var r := GetTilesToRender(tree, cache, roots, v, maxLevel).value;
            forall k | k in r.accepted :: Reached(r.tree, roots, k, v, maxLevel)
  {
    RootsReached(tree, roots, v, maxLevel);
    var w := Walk(tree, cache, []);
    TraverseReached(w, roots, 0, v, maxLevel, roots);
    var r := Traverse(w, roots, 0, v, maxLevel);
    assert r.accepted[|w.accepted|..] == r.accepted;
  }

  // ---------------------------------------------------------------------
  // No tile is rendered twice.

  /** Every tile of `next` is a child of a tile no longer in `level`. */
  ghost predicate Queued(tree: Tree, next: seq<nat>, level: seq<nat>) {
    forall x | x in next :: exists q | q in tree.tiles && q !in level :: x in tree.tiles[q].children
  }

  lemma StampTileForest(tree: Tree, key: nat, v: View)
    requires ValidView(v) && key in tree.tiles && Forest(tree)
    ensures Forest(StampTile(tree, key, v))
    ensures forall k | k in tree.tiles :: StampTile(tree, key, v).tiles[k].children == tree.tiles[k].children
  {
  }

  /** One visited tile keeps the next level distinct and its tiles queued
      by tiles already visited. */
  lemma AdvanceQueued(w: Walk, tree1: Tree, level: seq<nat>, next: seq<nat>, depth: nat, v: View, maxLevel: real, step: Step)
    requires ValidView(v) && ArenaOk(w.tree) && |level| > 0 && level[0] in w.tree.tiles && w.tree.tiles[level[0]].z == depth
    requires tree1 == StampTile(w.tree, level[0], v) && AtLevel(w.tree, next, depth + 1)
    requires Forest(w.tree) && Distinct(level) && Distinct(next) && Queued(w.tree, next, level)
    ensures KeysBelow(tree1)
    ensures var r := Advance(w, tree1, level[0], next, step);
            Forest(r.0.tree) && Distinct(r.1) && Queued(r.0.tree, r.1, level[1..])
  {
    var key := level[0];
    StampTileGrows(w.tree, key, v);
    StampTileForest(w.tree, key, v);
    AtLevelGrows(w.tree, tree1, next, depth + 1, v);
    QueuedRest(tree1, w.tree, next, level);
    if step == Expand {
      if |tree1.tiles[key].children| == 0 {
        var tree2 := CreateChildren(tree1, key);
        ExpandCreatedQueued(tree1, tree2, level, next, depth);
        assert Advance(w, tree1, key, next, step).0.tree == tree2;
        assert Advance(w, tree1, key, next, step).1 == next + tree2.tiles[key].children;
      } else {
        ExpandOldQueued(w, tree1, level, next);
      }
    }
  }

  /** Refining a childless tile queues its four new children. */
  lemma ExpandCreatedQueued(tree1: Tree, tree2: Tree, level: seq<nat>, next: seq<nat>, depth: nat)
    requires |level| > 0 && level[0] in tree1.tiles && ArenaOk(tree1) && Forest(tree1) && tree1.tiles[level[0]].children == []
    requires KeysBelow(tree1) && tree2 == CreateChildren(tree1, level[0])
    requires AtLevel(tree1, next, depth + 1) && Distinct(level) && Distinct(next)
    requires forall x | x in next :: exists q | q in tree1.tiles && q !in level :: x in tree1.tiles[q].children
    ensures var kids := tree2.tiles[level[0]].children;
            Forest(tree2) && Distinct(next + kids) && Queued(tree2, next + kids, level[1..])
  {
    var key := level[0];
    CreateChildrenForest(tree1, key);
    var kids := tree2.tiles[key].children;
    assert Distinct(kids);
    forall x | x in next && x in kids ensures false {
      ChildOfCreated(tree1, key, key, x);
    }
    DistinctAppend(next, kids);
    QueuedExtend(tree1, tree2, next, level, key, kids);
  }

  /** Refining a tile with children queues them; being the children of a
      tile of this level, none of them is queued already. */
  lemma ExpandOldQueued(w: Walk, tree1: Tree, level: seq<nat>, next: seq<nat>)
    requires |level| > 0 && level[0] in tree1.tiles && KeysBelow(tree1) && Forest(tree1) && |tree1.tiles[level[0]].children| > 0
    requires Distinct(level) && Distinct(next)
    requires forall x | x in next :: exists q | q in tree1.tiles && q !in level :: x in tree1.tiles[q].children
    ensures var r := Advance(w, tree1, level[0], next, Expand);
            Forest(r.0.tree) && Distinct(r.1) && Queued(r.0.tree, r.1, level[1..])
  {
    var key := level[0];
    var kids := tree1.tiles[key].children;
    forall x | x in next && x in kids ensures false {
    }
    DistinctAppend(next, kids);
    QueuedExtend(tree1, tree1, next, level, key, kids);
  }

  /** The tiles of `next` stay queued by tiles outside the rest of the level,
      in the stamped tree. */
  lemma QueuedRest(tree1: Tree, tree: Tree, next: seq<nat>, level: seq<nat>)
    requires |level| > 0 && Queued(tree, next, level)
    requires tree1.tiles.Keys == tree.tiles.Keys && forall k | k in tree.tiles :: tree1.tiles[k].children == tree.tiles[k].children
    ensures Queued(tree1, next, level[1..])
    ensures forall x | x in next :: exists q | q in tree1.tiles && q !in level :: x in tree1.tiles[q].children
  {
    forall x | x in next ensures exists q | q in tree1.tiles && q !in level :: x in tree1.tiles[q].children {
      var q :| q in tree.tiles && q !in level && x in tree.tiles[q].children;
      assert x in tree1.tiles[q].children;
    }
    forall x | x in next ensures exists q | q in tree1.tiles && q !in level[1..] :: x in tree1.tiles[q].children {
      var q :| q in tree1.tiles && q !in level && x in tree1.tiles[q].children;
      assert q !in level[1..];
    }
  }

  /** Appending the children of the visited tile `key` keeps the next
      level queued by tiles outside the rest of the level. */
  lemma QueuedExtend(tree1: Tree, tree2: Tree, next: seq<nat>, level: seq<nat>, key: nat, kids: seq<nat>)
    requires |level| > 0 && key == level[0] && Distinct(level) && key in tree2.tiles && tree2.tiles[key].children == kids
    requires forall x | x in next :: exists q | q in tree1.tiles && q !in level :: x in tree1.tiles[q].children
    requires forall q | q in tree1.tiles && q != key :: q in tree2.tiles && tree2.tiles[q].children == tree1.tiles[q].children
    ensures Queued(tree2, next + kids, level[1..])
  {
    assert key !in level[1..] by {
      forall i | 0 <= i < |level[1..]| ensures level[1..][i] != key {
        assert level[1..][i] == level[i + 1];
      }
    }
    forall x | x in next + kids ensures exists q | q in tree2.tiles && q !in level[1..] :: x in tree2.tiles[q].children {
      if x in next {
        var q :| q in tree1.tiles && q !in level && x in tree1.tiles[q].children;
        assert q != key && q !in level[1..];
        assert x in tree2.tiles[q].children;
      } else {
        assert x in tree2.tiles[key].children;
      }
    }
  }

  /** One visited tile adds at most itself to the tiles to render. */
  lemma AdvanceAccepted(w: Walk, tree1: Tree, level: seq<nat>, next: seq<nat>, step: Step)
    requires |level| > 0 && level[0] in tree1.tiles && KeysBelow(tree1) && Distinct(level)
    requires Distinct(w.accepted) && forall x | x in w.accepted :: x !in level
    ensures var r := Advance(w, tree1, level[0], next, step);
            Distinct(r.0.accepted) && (forall x | x in r.0.accepted :: x !in level[1..]) &&
            (forall x | x in r.0.accepted :: x in w.accepted || x in level)
  {
    var key := level[0];
    assert key !in level[1..] by {
      DistinctTail(level);
    }
    if step == Render {
      DistinctAppend(w.accepted, [key]);
    }
  }

  /** Visiting one level of distinct tiles renders each at most once and
      queues a next level of distinct tiles. */
  lemma {:induction false} VisitLevelDistinct(w: Walk, level: seq<nat>, next: seq<nat>, depth: nat, v: View, maxLevel: real)
    requires ValidView(v) && ArenaOk(w.tree) && AtLevel(w.tree, level, depth) && AtLevel(w.tree, next, depth + 1)
    requires Forest(w.tree) && Distinct(level) && Distinct(next) && Queued(w.tree, next, level)
    requires Distinct(w.accepted) && forall x | x in w.accepted :: x !in level
    ensures var r := VisitLevel(w, level, next, depth, v, maxLevel);
            Forest(r.0.tree) && Distinct(r.1) && Distinct(r.0.accepted) &&
            forall x | x in r.0.accepted :: x in w.accepted || x in level
    decreases |level|
  {
    if |level| > 0 {
      VisitFirst(w, level, next, depth, v, maxLevel);
      var key := level[0];
      var tree1 := StampTile(w.tree, key, v);
      var t := tree1.tiles[key];
      var step := StepOf(Decide(v, t.x, t.y, t.z), t.z, maxLevel);
      AdvanceQueued(w, tree1, level, next, depth, v, maxLevel, step);
      AdvanceAccepted(w, tree1, level, next, step);
      DistinctTail(level);
      var adv := Advance(w, tree1, key, next, step);
      assert adv == FirstAdvance(w, level, next, v, maxLevel);
      VisitLevelDistinct(adv.0, level[1..], adv.1, depth, v, maxLevel);
      assert VisitLevel(w, level, next, depth, v, maxLevel) == VisitLevel(adv.0, level[1..], adv.1, depth, v, maxLevel);
    }
  }

  /** Every tile in the list is in the tree, above level `depth`. */
  predicate Above(tree: Tree, keys: seq<nat>, depth: nat) {
    forall x | x in keys :: x in tree.tiles && tree.tiles[x].z < depth
  }

  /** The walk from a level of distinct tiles renders no tile twice. */
  lemma {:induction false} TraverseDistinct(w: Walk, level: seq<nat>, depth: nat, v: View, maxLevel: real)
    requires ValidView(v) && ArenaOk(w.tree) && AtLevel(w.tree, level, depth)
    requires Forest(w.tree) && Distinct(level) && Distinct(w.accepted) && Above(w.tree, w.accepted, depth)
    ensures Distinct(Traverse(w, level, depth, v, maxLevel).accepted) && Forest(Traverse(w, level, depth, v, maxLevel).tree)
    decreases Cap(maxLevel) - depth
  {
    TraverseStep(w, level, depth, v, maxLevel);
    assert forall x | x in w.accepted :: x !in level;
    VisitLevelDistinct(w, level, [], depth, v, maxLevel);
    var s := VisitLevel(w, level, [], depth, v, maxLevel);
    if |s.1| > 0 {
      AboveNext(w, level, depth, v, s.0);
      TraverseDistinct(s.0, s.1, depth + 1, v, maxLevel);
    }
  }

  /** After a level, the tiles to render are all above the next one. */
  lemma AboveNext(w: Walk, level: seq<nat>, depth: nat, v: View, s0: Walk)
    requires AtLevel(w.tree, level, depth) && Above(w.tree, w.accepted, depth) && TreeGrows(w.tree, s0.tree, v)
    requires forall x | x in s0.accepted :: x in w.accepted || x in level
    ensures Above(s0.tree, s0.accepted, depth + 1)
  {
    AtLevelGrows(w.tree, s0.tree, level, depth, v);
    forall x | x in s0.accepted ensures x in s0.tree.tiles && s0.tree.tiles[x].z < depth + 1 {
      if x in level {
        var i :| 0 <= i < |level| && level[i] == x;
      } else {
        assert TileGrows(w.tree.tiles[x], s0.tree.tiles[x], v);
      }
    }
  }

  /** Over a forest with distinct roots, no tile is rendered twice. */
  lemma GetTilesToRenderDistinct(tree: Tree, cache: seq<nat>, roots: seq<nat>, v: View, maxLevel: real)
    requires ValidView(v) && ArenaOk(tree) && AtLevel(tree, roots, 0)
    requires Forest(tree) && Distinct(roots)
    ensures var r := GetTilesToRender(tree, cache, roots, v, maxLevel);
            r.Some? ==> Distinct(r.value.accepted) && Forest(r.value.tree)
  {
    if |roots| > 0 {
      TraverseDistinct(Walk(tree, cache, []), roots, 0, v, maxLevel);
    }
  }
}
