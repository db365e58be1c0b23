/** The tileset's per-frame `update` (Source/VectorTileset.js) and the end
    of a fetch pass. A frame empties the render list, resets the
    initialization counter, walks the quadtree (unless the globe's level of
    detail is suspended, in which case last frame's tiles are kept), sorts the
    tiles to render by distance to the camera, updates each of them under the
    two admission counters, and finally sweeps the cache of created child
    tiles for tiles that were not visited. Fetches run concurrently with
    frames: a pass a tile update starts is queued in `inflight` and completes
    in a separate event. */
module TilesetFrame {
  import opened Wrappers
  import opened Features
  import opened Style
  import opened Registry
  import opened RenderLayers
  import opened Visualizers
  import opened Tiles
  import opened Tileset
  import opened Traversal
  import opened Sorting
  import RenderList

  /** What a frame gives the tileset: its number, the globe's
      `suspendLodUpdate` debug flag, the camera as the walk sees it, and the
      frame's command list so far. */
  datatype Frame = Frame(frameNumber: int, suspendLodUpdate: bool, view: View, commands: seq<DrawCommand>)

  /** What the tile updates draw on from outside the tileset: the layer
      registry, the compiled style filters, each visualizer's update seen
      through its new state, and the style expression evaluator. */
  datatype FrameEnv = FrameEnv(
    tables: LayerTables,
    filter: (StyleLayer, nat, Feature) -> bool,
    visUpdate: TileVisualizer -> VisState,
    eval: (Expr, real, Option<Feature>) -> Value)

  /** Every tile holds live layers that its visualizers index correctly. */
  predicate TilesOk(tree: Tree) {
    forall k | k in tree.tiles :: TileOk(tree.tiles[k])
  }

  /** Two versions of a tile at the same place in the quadtree, with the same
      visit record: what tile updates and unloads leave alone. */
  predicate SameShape(a: Tile, b: Tile) {
    a.x == b.x && a.y == b.y && a.z == b.z && a.key == b.key && a.parent == b.parent &&
    a.children == b.children && a.distance == b.distance && a.visibility == b.visibility
  }

  /** A tree whose tiles are those of `t1`, each with the same shape. */
  predicate SameTree(t1: Tree, t2: Tree) {
    t1.nextKey == t2.nextKey && t1.tiles.Keys == t2.tiles.Keys &&
    forall k | k in t1.tiles :: SameShape(t1.tiles[k], t2.tiles[k])
  }

  // ---------------------------------------------------------------------
  // The walk and the distance sort.

  /** The comparator key `distanceToCamera`. Every tile the walk renders has
      one; a tile without one is not sorted by this model. */
  function DistanceKey(tree: Tree): nat -> real {
    k => if k in tree.tiles && tree.tiles[k].distance.Some? then tree.tiles[k].distance.value else 0.0
  }

  lemma RootsAtLevelZero(ts: Tileset)
    requires Inv(ts)
    ensures AtLevel(ts.tree, ts.roots, 0)
  {
  }

  /** The tiles to render of a frame: last frame's list under a suspended
      level of detail, otherwise `getTilesToRender` sorted by distance. */
  function Lod(ts: Tileset, frame: Frame): (r: Tileset)
    requires Inv(ts) && ts.ready && ValidView(frame.view)
    ensures r == ts.(tree := r.tree, cache := r.cache, tilesToRender := r.tilesToRender)
    ensures frame.suspendLodUpdate ==> r == ts
  {
    if frame.suspendLodUpdate then ts
    else
      RootsAtLevelZero(ts);
      var w := GetTilesToRender(ts.tree, ts.cache, ts.roots, frame.view, ts.maximumLevel).value;
      ts.(tree := w.tree, cache := w.cache, tilesToRender := SortBy(w.accepted, DistanceKey(w.tree)))
  }

  /** After the walk, the tiles to render are ordered by distance to the
      camera and each is one the walk chose under this frame's view. */
  lemma LodRenders(ts: Tileset, frame: Frame)
    requires Inv(ts) && ts.ready && ValidView(frame.view) && !frame.suspendLodUpdate
    ensures var r := Lod(ts, frame);
            SortedBy(r.tilesToRender, DistanceKey(r.tree)) &&
            forall i | 0 <= i < |r.tilesToRender| :: Chosen(r.tree, r.tilesToRender[i], frame.view, ts.maximumLevel)
  {
    RootsAtLevelZero(ts);
    var w := GetTilesToRender(ts.tree, ts.cache, ts.roots, frame.view, ts.maximumLevel).value;
    GetTilesToRenderSound(ts.tree, ts.cache, ts.roots, frame.view, ts.maximumLevel);
    var s := SortBy(w.accepted, DistanceKey(w.tree));
    SortBySorted(w.accepted, DistanceKey(w.tree));
    forall i | 0 <= i < |s| ensures Chosen(w.tree, s[i], frame.view, ts.maximumLevel) {
      assert s[i] in multiset(w.accepted);
      var j :| 0 <= j < |w.accepted| && w.accepted[j] == s[i];
    }
  }

  /** Tiles the walk keeps have the same layers and visualizers, and the ones
      it creates have none. */
  lemma WalkTilesOk(t1: Tree, t2: Tree, v: View)
    requires TilesOk(t1) && TreeGrows(t1, t2, v) && NewTilesEmpty(t1, t2)
    ensures TilesOk(t2)
  {
    forall k | k in t2.tiles ensures TileOk(t2.tiles[k]) {
      if k in t1.tiles {
        assert TileGrows(t1.tiles[k], t2.tiles[k], v);
        assert TileOk(t1.tiles[k]);
      }
    }
  }

  /** A root's children are old tiles, below the walk's fresh keys. */
  lemma RootChildrenOld(ts: Tileset, i: nat, c: nat)
    requires Inv(ts) && i < |ts.roots| && c in ts.tree.tiles[ts.roots[i]].children
    ensures c < ts.tree.nextKey
  {
    assert NodeOk(ts.tree, ts.roots[i]);
    assert NodeOk(ts.tree, c);
  }

  /** What the walk guarantees of its result `w` when it starts from the
      tileset's tree and cache. */
  predicate WalkOk(ts: Tileset, w: Walk, v: View) {
    ArenaOk(w.tree) && TreeGrows(ts.tree, w.tree, v) && NewTilesEmpty(ts.tree, w.tree) &&
    CacheExtends(Walk(ts.tree, ts.cache, []), w)
  }

  /** The cache the walk extends holds no root child: the old entries held
      none, and the new ones are fresh. */
  lemma WalkNoRootChildCached(ts: Tileset, w: Walk, v: View, i: nat, j: nat)
    requires Inv(ts) && WalkOk(ts, w, v) && i < |ts.roots| && j < |w.cache|
    ensures ts.roots[i] in w.tree.tiles && w.cache[j] !in w.tree.tiles[ts.roots[i]].children
  {
    assert TileGrows(ts.tree.tiles[ts.roots[i]], w.tree.tiles[ts.roots[i]], v);
    if j < |ts.cache| {
      assert w.cache[j] == w.cache[..|ts.cache|][j];
    } else if w.cache[j] in w.tree.tiles[ts.roots[i]].children {
      RootChildrenOld(ts, i, w.cache[j]);
    }
  }

  /** Taking the walk's tree and cache, and tiles to render from its tree,
      keeps the tileset invariant. */
  lemma WalkKeepsInv(ts: Tileset, w: Walk, v: View, toRender: seq<nat>)
    requires Inv(ts) && WalkOk(ts, w, v)
    requires forall i | 0 <= i < |toRender| :: toRender[i] in w.tree.tiles
    ensures Inv(ts.(tree := w.tree, cache := w.cache, tilesToRender := toRender))
  {
    var r := ts.(tree := w.tree, cache := w.cache, tilesToRender := toRender);
    WalkTilesOk(ts.tree, w.tree, v);
    forall i | 0 <= i < |r.roots|
      ensures r.roots[i] in r.tree.tiles && r.tree.tiles[r.roots[i]].z == 0 && |r.tree.tiles[r.roots[i]].children| == 4
    {
      assert TileGrows(ts.tree.tiles[ts.roots[i]], w.tree.tiles[ts.roots[i]], v);
    }
    forall i | 0 <= i < |r.cache| ensures r.cache[i] in r.tree.tiles {
      if i < |ts.cache| {
        assert r.cache[i] == w.cache[..|ts.cache|][i];
      }
    }
    forall i, j | 0 <= i < |r.roots| && 0 <= j < |r.cache| ensures r.cache[j] !in r.tree.tiles[r.roots[i]].children {
      WalkNoRootChildCached(ts, w, v, i, j);
    }
  }

  /** The walk keeps the tileset invariant. */
  lemma LodKeepsInv(ts: Tileset, frame: Frame)
    requires Inv(ts) && ts.ready && ValidView(frame.view)
    ensures Inv(Lod(ts, frame))
  {
    if !frame.suspendLodUpdate {
      RootsAtLevelZero(ts);
      var w := GetTilesToRender(ts.tree, ts.cache, ts.roots, frame.view, ts.maximumLevel).value;
      GetTilesToRenderSound(ts.tree, ts.cache, ts.roots, frame.view, ts.maximumLevel);
      LodRenders(ts, frame);
      WalkKeepsInv(ts, w, frame.view, Lod(ts, frame).tilesToRender);
    }
  }

  // ---------------------------------------------------------------------
  // The tile updates.

  /** The type of every tileset source, as the build looks it up. */
  function SourceTypes(sources: map<string, Source>): (r: map<string, string>)
    ensures r.Keys == sources.Keys && forall id | id in r :: r[id] == sources[id].sourceType
  {
    map id | id in sources :: sources[id].sourceType
  }

  function TileEnv(ts: Tileset, env: FrameEnv): BuildEnv {
    BuildEnv(ts.styleLayers, env.tables, SourceTypes(ts.sources), env.filter)
  }

  /** A tile update as the loop sees it. */
  type Updater = (Tile, Counters, seq<DrawCommand>) --> TileStep

  /** What stays fixed during the update loop: the tileset's caps, the frame
      number, and `tile.update` with the tileset's sources, build
      environment, and the visualizer and layer updates bound in. */
  datatype Ctx = Ctx(caps: Caps, frameNumber: int, update: Updater)

  /** What the loop relies on from one tile update: the tile keeps its place
      and visit record and stays well formed, a fetch pass is pending only
      when the loading counter was raised for it, and each counter is raised
      by at most one and only under its cap. */
  predicate StepSpec(t: Tile, c: Counters, caps: Caps, s: TileStep) {
    SameShape(t, s.tile) && s.tile.lastVisitTime == t.lastVisitTime && s.tile.expired == t.expired && TileOk(s.tile) &&
    (s.pending.Some? ==> s.counters.numLoading == c.numLoading + 1) &&
    (s.pending.None? ==> s.counters.numLoading == c.numLoading) &&
    (s.counters.numLoading != c.numLoading ==> caps.maxLoading.Some? && c.numLoading <= caps.maxLoading.value) &&
    (s.counters.numInitializing != c.numInitializing ==>
       caps.maxInitializing.Some? && c.numInitializing < caps.maxInitializing.value &&
       s.counters.numInitializing == c.numInitializing + 1)
  }

  /** The context's update is defined on well-formed tiles and meets
      `StepSpec`. */
  ghost predicate CtxOk(ctx: Ctx) {
    forall t: Tile, c: Counters, f: seq<DrawCommand> | TileOk(t) ::
      ctx.update.requires(t, c, f) && StepSpec(t, c, ctx.caps, ctx.update(t, c, f))
  }

  /** The context of a frame: `tile.update` against this tileset. */
  function CtxOf(ts: Tileset, frame: Frame, env: FrameEnv): (r: Ctx)
    ensures CtxOk(r)
  {
    var caps := Caps(ts.maxLoading, ts.maxInitializing);
    var benv := TileEnv(ts, env);
    var ctx := Ctx(caps, frame.frameNumber,
                   (t, c, f) requires TileOk(t) => TileUpdate(t, c, caps, ts.sources.Keys, benv, env.visUpdate, env.eval, f));
    ctx
  }

  /** What the update loop changes: the tiles, the two counters, the fetch
      queue and the frame's command list. */
  datatype Pass = Pass(tree: Tree, numLoading: int, numInitializing: int, inflight: seq<Fetch>, commands: seq<DrawCommand>)

  /** `q1` is `q0`, or `q0` with one fetch for `key` appended. */
  predicate Pushed(q0: seq<Fetch>, q1: seq<Fetch>, key: nat) {
    q1 == q0 || (|q1| == |q0| + 1 && q1[..|q0|] == q0 && q1[|q0|].key == key)
  }

  /** One iteration of the update loop: the tile is stamped with the frame
      number and marked not expired, then `tile.update` runs against the
      counters; a fetch pass it starts is queued. */
  function VisitTile(p: Pass, key: nat, ctx: Ctx): (r: Pass)
    requires CtxOk(ctx) && key in p.tree.tiles && TilesOk(p.tree)
    ensures r.tree.nextKey == p.tree.nextKey && r.tree.tiles.Keys == p.tree.tiles.Keys && TilesOk(r.tree)
  {
    var t := p.tree.tiles[key].(lastVisitTime := ctx.frameNumber, expired := false);
    var c := Counters(p.numLoading, p.numInitializing);
    var s := ctx.update(t, c, p.commands);
    var inflight := if s.pending.Some? then p.inflight + [Fetch(key, s.pending.value)] else p.inflight;
    Pass(Tree(p.tree.tiles[key := s.tile], p.tree.nextKey), s.counters.numLoading, s.counters.numInitializing, inflight, s.frame)
  }

  /** A visit changes only the visited tile, keeps its place, stamps it,
      and queues at most one fetch for it, which the loading counter counts. */
  lemma VisitTileFrame(p: Pass, key: nat, ctx: Ctx)
    requires CtxOk(ctx) && key in p.tree.tiles && TilesOk(p.tree)
    ensures var r := VisitTile(p, key, ctx);
            SameTree(p.tree, r.tree) &&
            (forall k | k in p.tree.tiles && k != key :: r.tree.tiles[k] == p.tree.tiles[k]) &&
            r.tree.tiles[key].lastVisitTime == ctx.frameNumber && !r.tree.tiles[key].expired &&
            Pushed(p.inflight, r.inflight, key) &&
            r.numLoading - |r.inflight| == p.numLoading - |p.inflight|
  {
    var t := p.tree.tiles[key].(lastVisitTime := ctx.frameNumber, expired := false);
    assert StepSpec(t, Counters(p.numLoading, p.numInitializing), ctx.caps, ctx.update(t, Counters(p.numLoading, p.numInitializing), p.commands));
  }

  /** A visit raises each counter by at most one, and only under its cap. */
  lemma VisitTileCounters(p: Pass, key: nat, ctx: Ctx)
    requires CtxOk(ctx) && key in p.tree.tiles && TilesOk(p.tree)
    ensures var r := VisitTile(p, key, ctx);
            (r.numLoading != p.numLoading ==>
               ctx.caps.maxLoading.Some? && p.numLoading <= ctx.caps.maxLoading.value && r.numLoading == p.numLoading + 1) &&
            (r.numInitializing != p.numInitializing ==>
               ctx.caps.maxInitializing.Some? && p.numInitializing < ctx.caps.maxInitializing.value &&
               r.numInitializing == p.numInitializing + 1)
  {
    var t := p.tree.tiles[key].(lastVisitTime := ctx.frameNumber, expired := false);
    assert StepSpec(t, Counters(p.numLoading, p.numInitializing), ctx.caps, ctx.update(t, Counters(p.numLoading, p.numInitializing), p.commands));
  }

  /** The update loop over `keys`, in order. */
  function UpdateTiles(p: Pass, keys: seq<nat>, ctx: Ctx): (r: Pass)
    requires CtxOk(ctx) && TilesOk(p.tree) && forall i | 0 <= i < |keys| :: keys[i] in p.tree.tiles
    ensures TilesOk(r.tree) && r.tree.tiles.Keys == p.tree.tiles.Keys
    decreases |keys|
  {
    if |keys| == 0 then p
    else UpdateTiles(VisitTile(p, keys[0], ctx), keys[1..], ctx)
  }

  /** Growing a queue by fetches of tiles in `keys`. */
  predicate QueueGrows(q1: seq<Fetch>, q2: seq<Fetch>, keys: seq<nat>) {
    |q2| >= |q1| && q2[..|q1|] == q1 && forall i | |q1| <= i < |q2| :: q2[i].key in keys
  }

  lemma QueueGrowsStep(q0: seq<Fetch>, q1: seq<Fetch>, q2: seq<Fetch>, key: nat, keys: seq<nat>)
    requires |keys| > 0 && key == keys[0]
    requires Pushed(q0, q1, key)
    requires QueueGrows(q1, q2, keys[1..])
    ensures QueueGrows(q0, q2, keys)
  {
    assert q2[..|q0|] == q1[..|q0|];
    forall i | |q0| <= i < |q2| ensures q2[i].key in keys {
      if i >= |q1| {
        assert q2[i].key in keys[1..];
      }
    }
  }

  /** The update loop keeps every tile in its place with its visit record,
      grows the queue only by fetches of visited tiles, keeps the loading
      counter counting the queue, and leaves tiles not in `keys` untouched. */
  lemma {:induction false} UpdateTilesFrame(p: Pass, keys: seq<nat>, ctx: Ctx)
    requires CtxOk(ctx) && TilesOk(p.tree) && forall i | 0 <= i < |keys| :: keys[i] in p.tree.tiles
    ensures var r := UpdateTiles(p, keys, ctx);
            SameTree(p.tree, r.tree) && QueueGrows(p.inflight, r.inflight, keys) &&
            r.numLoading - |r.inflight| == p.numLoading - |p.inflight| &&
            forall k | k in p.tree.tiles && k !in keys :: r.tree.tiles[k] == p.tree.tiles[k]
    decreases |keys|
  {
    if |keys| > 0 {
      var s := VisitTile(p, keys[0], ctx);
      VisitTileFrame(p, keys[0], ctx);
      UpdateTilesFrame(s, keys[1..], ctx);
      QueueGrowsStep(p.inflight, s.inflight, UpdateTiles(s, keys[1..], ctx).inflight, keys[0], keys);
    }
  }

  /** Every tile in `keys` ends the loop stamped with the frame number and
      not expired. */
  lemma {:induction false} UpdateTilesStamps(p: Pass, keys: seq<nat>, ctx: Ctx, i: nat)
    requires CtxOk(ctx) && TilesOk(p.tree) && forall j | 0 <= j < |keys| :: keys[j] in p.tree.tiles
    requires i < |keys|
    ensures var r := UpdateTiles(p, keys, ctx);
            r.tree.tiles[keys[i]].lastVisitTime == ctx.frameNumber && !r.tree.tiles[keys[i]].expired
    decreases |keys|
  {
    var s := VisitTile(p, keys[0], ctx);
    VisitTileFrame(p, keys[0], ctx);
    if i > 0 {
      UpdateTilesStamps(s, keys[1..], ctx, i - 1);
    } else if keys[0] in keys[1..] {
      var j :| 0 <= j < |keys[1..]| && keys[1..][j] == keys[0];
      UpdateTilesStamps(s, keys[1..], ctx, j);
    } else {
      UpdateTilesFrame(s, keys[1..], ctx);
    }
  }

  /** `n` raised to `cap` when there is a cap above it. */
  function Ceiling(n: int, cap: Option<int>): int {
    if cap.Some? && cap.value > n then cap.value else n
  }

  /** The initialization counter never passes its cap (or where it started,
      if that was higher); an undefined cap admits nothing. */
  lemma {:induction false} UpdateTilesInitializing(p: Pass, keys: seq<nat>, ctx: Ctx)
    requires CtxOk(ctx) && TilesOk(p.tree) && forall i | 0 <= i < |keys| :: keys[i] in p.tree.tiles
    ensures var r := UpdateTiles(p, keys, ctx);
            p.numInitializing <= r.numInitializing <= Ceiling(p.numInitializing, ctx.caps.maxInitializing)
    decreases |keys|
  {
    if |keys| > 0 {
      VisitTileCounters(p, keys[0], ctx);
      UpdateTilesInitializing(VisitTile(p, keys[0], ctx), keys[1..], ctx);
    }
  }

  /** The loading counter never passes one more than its cap (or where it
      started, if that was higher), since `numLoading <= maxLoading` admits a
      tile at the cap itself; an undefined cap admits nothing. */
  lemma {:induction false} UpdateTilesLoading(p: Pass, keys: seq<nat>, ctx: Ctx)
    requires CtxOk(ctx) && TilesOk(p.tree) && forall i | 0 <= i < |keys| :: keys[i] in p.tree.tiles
    ensures var r := UpdateTiles(p, keys, ctx);
            p.numLoading <= r.numLoading <= Ceiling(p.numLoading, if ctx.caps.maxLoading.Some? then Some(ctx.caps.maxLoading.value + 1) else None)
    decreases |keys|
  {
    if |keys| > 0 {
      VisitTileCounters(p, keys[0], ctx);
      UpdateTilesLoading(VisitTile(p, keys[0], ctx), keys[1..], ctx);
    }
  }

  // ---------------------------------------------------------------------
  // The eviction sweep.

  /** A cache tile the sweep considers: not visited this frame and not
      already expired. */
  predicate Expiring(t: Tile, frameNumber: int) {
    t.lastVisitTime < frameNumber && !t.expired
  }

  /** The cache tiles that are expiring, in cache order. */
  function Candidates(tree: Tree, cache: seq<nat>, frameNumber: int): (r: seq<nat>)
    requires forall i | 0 <= i < |cache| :: cache[i] in tree.tiles
    decreases |cache|
  {
    if |cache| == 0 then []
    else
      var rest := Candidates(tree, cache[1..], frameNumber);
      if Expiring(tree.tiles[cache[0]], frameNumber) then [cache[0]] + rest else rest
  }

  /** Exactly the expiring cache tiles are candidates. */
  lemma {:induction false} CandidatesSpec(tree: Tree, cache: seq<nat>, frameNumber: int, k: nat)
    requires forall i | 0 <= i < |cache| :: cache[i] in tree.tiles
    ensures k in Candidates(tree, cache, frameNumber) <==> k in cache && k in tree.tiles && Expiring(tree.tiles[k], frameNumber)
    decreases |cache|
  {
    if |cache| > 0 {
      CandidatesSpec(tree, cache[1..], frameNumber, k);
      assert k in cache <==> k == cache[0] || k in cache[1..];
    }
  }

  /** The comparator key `lastVisitTime`. */
  function VisitKey(tree: Tree): nat -> real {
    k => if k in tree.tiles then tree.tiles[k].lastVisitTime as real else 0.0
  }

  /** `expiredTiles`: the candidates, least recently visited first. */
  function ExpiredTiles(tree: Tree, cache: seq<nat>, frameNumber: int): (r: seq<nat>)
    requires forall i | 0 <= i < |cache| :: cache[i] in tree.tiles
  {
    SortBy(Candidates(tree, cache, frameNumber), VisitKey(tree))
  }

  /** The expired tiles are the expiring cache tiles, oldest visit first. */
  lemma ExpiredTilesSpec(tree: Tree, cache: seq<nat>, frameNumber: int)
    requires forall i | 0 <= i < |cache| :: cache[i] in tree.tiles
    ensures var e := ExpiredTiles(tree, cache, frameNumber);
            SortedBy(e, VisitKey(tree)) &&
            forall k :: k in e <==> k in cache && k in tree.tiles && Expiring(tree.tiles[k], frameNumber)
  {
    var c := Candidates(tree, cache, frameNumber);
    var e := ExpiredTiles(tree, cache, frameNumber);
    SortBySorted(c, VisitKey(tree));
    forall k ensures k in e <==> k in cache && k in tree.tiles && Expiring(tree.tiles[k], frameNumber) {
      CandidatesSpec(tree, cache, frameNumber, k);
      assert k in e <==> k in multiset(e);
      assert k in c <==> k in multiset(c);
    }
  }

  /** `expiredTile.unload(); expiredTile.expired = true`. */
  function Expire(tree: Tree, k: nat): (r: Tree)
    requires k in tree.tiles
    ensures r.nextKey == tree.nextKey && r.tiles.Keys == tree.tiles.Keys
    ensures r.tiles[k].state == StateNone && r.tiles[k].layers == [] && r.tiles[k].expired
    ensures r.tiles[k] == Unload(tree.tiles[k]).(expired := true)
    ensures forall j | j in tree.tiles && j != k :: r.tiles[j] == tree.tiles[j]
  {
    Tree(tree.tiles[k := Unload(tree.tiles[k]).(expired := true)], tree.nextKey)
  }

  /** Expiring every tile of `ks` in turn. */
  function ExpireAll(tree: Tree, ks: seq<nat>): (r: Tree)
    requires forall i | 0 <= i < |ks| :: ks[i] in tree.tiles
    ensures r.nextKey == tree.nextKey && r.tiles.Keys == tree.tiles.Keys
    decreases |ks|
  {
    if |ks| == 0 then tree else ExpireAll(Expire(tree, ks[0]), ks[1..])
  }

  /** Every tile of `ks` ends unloaded and expired, whether it occurs once or
      more; every other tile is untouched. */
  lemma {:induction false} ExpireAllSpec(tree: Tree, ks: seq<nat>, k: nat)
    requires forall i | 0 <= i < |ks| :: ks[i] in tree.tiles
    requires k in tree.tiles
    ensures k in ks ==> ExpireAll(tree, ks).tiles[k] == Unload(tree.tiles[k]).(expired := true)
    ensures k !in ks ==> ExpireAll(tree, ks).tiles[k] == tree.tiles[k]
    decreases |ks|
  {
    if |ks| > 0 {
      var t1 := Expire(tree, ks[0]);
      ExpireAllSpec(t1, ks[1..], k);
      assert k in ks <==> k == ks[0] || k in ks[1..];
    }
  }

  /** The sweep as written: with more than 100 expired tiles it unloads them
      oldest first, and after each one means to stop once 50 are left; but it
      tests the length of the list it iterates, which never changes, so the
      test is false on every iteration. */
  function SweepAsWritten(tree: Tree, e: seq<nat>): (r: Tree)
    requires forall i | 0 <= i < |e| :: e[i] in tree.tiles
  {
    if |e| > 100 then SweepLoop(tree, e, 0) else tree
  }

  /** The loop of `SweepAsWritten` from index `i`. */
  function SweepLoop(tree: Tree, e: seq<nat>, i: nat): (r: Tree)
    requires i <= |e| && forall j | 0 <= j < |e| :: e[j] in tree.tiles
    ensures r.tiles.Keys == tree.tiles.Keys
    decreases |e| - i
  {
    if i == |e| then tree
    else
      var t := Expire(tree, e[i]);
      if |e| <= 50 then t else SweepLoop(t, e, i + 1)
  }

  lemma {:induction false} SweepLoopAll(tree: Tree, e: seq<nat>, i: nat)
    requires i <= |e| && |e| > 50 && forall j | 0 <= j < |e| :: e[j] in tree.tiles
    ensures SweepLoop(tree, e, i) == ExpireAll(tree, e[i..])
    decreases |e| - i
  {
    if i < |e| {
      SweepLoopAll(Expire(tree, e[i]), e, i + 1);
      assert e[i..][1..] == e[i + 1..];
    }
  }

  /** As written, once the sweep runs it unloads every expired tile, the
      most recently visited included: the early exit never fires. */
  lemma SweepAsWrittenUnloadsAll(tree: Tree, e: seq<nat>, k: nat)
    requires forall i | 0 <= i < |e| :: e[i] in tree.tiles
    requires |e| > 100 && k in e
    ensures SweepAsWritten(tree, e).tiles[k] == Unload(tree.tiles[k]).(expired := true)
  {
    SweepLoopAll(tree, e, 0);
    assert e[0..] == e;
    ExpireAllSpec(tree, e, k);
  }

  /** The sweep as intended: with more than 100 expired tiles, the oldest are
      unloaded until 50 are left. */
  function Sweep(tree: Tree, e: seq<nat>): (r: Tree)
    requires forall i | 0 <= i < |e| :: e[i] in tree.tiles
    ensures r.nextKey == tree.nextKey && r.tiles.Keys == tree.tiles.Keys
  {
    if |e| > 100 then ExpireAll(tree, e[..|e| - 50]) else tree
  }

  /** The intended sweep leaves fewer than 101 expired tiles alone, and
      otherwise unloads all but the 50 most recently visited; nothing outside
      the list changes. */
  lemma SweepSpec(tree: Tree, e: seq<nat>, k: nat)
    requires forall i | 0 <= i < |e| :: e[i] in tree.tiles
    requires k in tree.tiles
    ensures |e| <= 100 ==> Sweep(tree, e) == tree
    ensures |e| > 100 && k in e[..|e| - 50] ==> Sweep(tree, e).tiles[k] == Unload(tree.tiles[k]).(expired := true)
    ensures k !in e[..Max0(|e| - 50)] ==> Sweep(tree, e).tiles[k] == tree.tiles[k]
  {
    if |e| > 100 {
      ExpireAllSpec(tree, e[..|e| - 50], k);
    }
  }

  function Max0(n: int): nat {
    if n < 0 then 0 else n
  }

  /** With 101 expired tiles of distinct keys, the sweep as written unloads
      the most recent one, which the intended sweep keeps. */
  lemma SweepDiscrepancy(tree: Tree, e: seq<nat>)
    requires forall i | 0 <= i < |e| :: e[i] in tree.tiles
    requires |e| == 101 && forall i | 0 <= i < 100 :: e[i] != e[100]
    requires tree.tiles[e[100]].state != StateNone
    ensures SweepAsWritten(tree, e).tiles[e[100]].state == StateNone
    ensures Sweep(tree, e).tiles[e[100]] == tree.tiles[e[100]]
  {
    SweepAsWrittenUnloadsAll(tree, e, e[100]);
    SweepSpec(tree, e, e[100]);
  }

  lemma ExpireAllKeepsShape(tree: Tree, ks: seq<nat>)
    requires forall i | 0 <= i < |ks| :: ks[i] in tree.tiles
    ensures SameTree(tree, ExpireAll(tree, ks))
    ensures forall k | k in tree.tiles :: TileOk(ExpireAll(tree, ks).tiles[k]) || ExpireAll(tree, ks).tiles[k] == tree.tiles[k]
  {
    forall k | k in tree.tiles
      ensures SameShape(tree.tiles[k], ExpireAll(tree, ks).tiles[k])
      ensures TileOk(ExpireAll(tree, ks).tiles[k]) || ExpireAll(tree, ks).tiles[k] == tree.tiles[k]
    {
      ExpireAllSpec(tree, ks, k);
    }
  }

  // ---------------------------------------------------------------------
  // update.

  /** A tree with the same tiles in the same places is as well formed. */
  lemma SameTreeArena(t1: Tree, t2: Tree)
    requires ArenaOk(t1) && SameTree(t1, t2)
    ensures ArenaOk(t2)
  {
    forall k | k in t2.tiles ensures NodeOk(t2, k) {
      assert NodeOk(t1, k);
      assert SameShape(t1.tiles[k], t2.tiles[k]);
      var t := t1.tiles[k];
      forall i | 0 <= i < |t.children| ensures t.children[i] in t2.tiles && t2.tiles[t.children[i]].z == t.z + 1 {
        assert SameShape(t1.tiles[t.children[i]], t2.tiles[t.children[i]]);
      }
    }
  }

  /** The tileset with the tiles, counters and queue of a pass. */
  function WithPass(ts: Tileset, p: Pass): (r: Tileset) {
    ts.(tree := p.tree, numLoading := p.numLoading, numInitializing := p.numInitializing, inflight := p.inflight)
  }

  /** Replacing the tiles by ones of the same shape, with a queue of tiles of
      the tree that the loading counter counts, keeps the tileset invariant. */
  lemma WithPassKeepsInv(ts: Tileset, p: Pass)
    requires Inv(ts) && SameTree(ts.tree, p.tree) && TilesOk(p.tree)
    requires (forall i | 0 <= i < |p.inflight| :: p.inflight[i].key in p.tree.tiles) && p.numLoading == |p.inflight|
    ensures Inv(WithPass(ts, p))
  {
    SameTreeArena(ts.tree, p.tree);
    var r := WithPass(ts, p);
    forall i | 0 <= i < |ts.roots|
      ensures r.tree.tiles[ts.roots[i]].z == 0 && r.tree.tiles[ts.roots[i]].children == ts.tree.tiles[ts.roots[i]].children
    {
      assert SameShape(ts.tree.tiles[ts.roots[i]], p.tree.tiles[ts.roots[i]]);
    }
  }

  /** The tileset as the frame starts: an emptied render list and no tile
      initialized yet. */
  function Begin(ts: Tileset): (r: Tileset)
    ensures Inv(ts) ==> Inv(r)
    ensures RenderList.GetList(r.renderList) == []
  {
    RenderList.BeginFrameEmpties(ts.renderList);
    ts.(renderList := RenderList.BeginFrame(ts.renderList), numInitializing := 0)
  }

  function PassOf(ts: Tileset, commands: seq<DrawCommand>): Pass {
    Pass(ts.tree, ts.numLoading, ts.numInitializing, ts.inflight, commands)
  }

  /** The frame up to the sweep: the walk, then the update loop. */
  function Visited(ts: Tileset, frame: Frame, env: FrameEnv): (r: (Tileset, Pass))
    requires Inv(ts) && ts.ready && ValidView(frame.view)
    ensures Inv(r.0) && r.0 == Lod(Begin(ts), frame)
    ensures TilesOk(r.1.tree) && r.1.tree.tiles.Keys == r.0.tree.tiles.Keys
    ensures forall i | 0 <= i < |r.0.cache| :: r.0.cache[i] in r.1.tree.tiles
  {
    var ts1 := Lod(Begin(ts), frame);
    LodKeepsInv(Begin(ts), frame);
    var p := UpdateTiles(PassOf(ts1, frame.commands), ts1.tilesToRender, CtxOf(ts1, frame, env));
    CacheInTree(ts1, p.tree);
    (ts1, p)
  }

  lemma CacheInTree(ts: Tileset, tree: Tree)
    requires Inv(ts) && tree.tiles.Keys == ts.tree.tiles.Keys
    ensures forall i | 0 <= i < |ts.cache| :: ts.cache[i] in tree.tiles
  {
    forall i | 0 <= i < |ts.cache| ensures ts.cache[i] in tree.tiles {
      assert ts.cache[i] in ts.tree.tiles;
    }
  }

  /** The update loop keeps the tileset invariant. */
  lemma VisitedKeepsInv(ts: Tileset, frame: Frame, env: FrameEnv)
    requires Inv(ts) && ts.ready && ValidView(frame.view)
    ensures var v := Visited(ts, frame, env); Inv(WithPass(v.0, v.1))
  {
    var v := Visited(ts, frame, env);
    var ts1 := v.0;
    UpdateTilesFrame(PassOf(ts1, frame.commands), ts1.tilesToRender, CtxOf(ts1, frame, env));
    var p := v.1;
    forall i | 0 <= i < |p.inflight| ensures p.inflight[i].key in p.tree.tiles {
      if i < |ts1.inflight| {
        assert p.inflight[i] == p.inflight[..|ts1.inflight|][i];
      }
    }
    WithPassKeepsInv(ts1, p);
  }

  /** `update(frameState)`. Nothing happens before `init` or while hidden.
      Otherwise the render list is emptied, the initialization counter reset,
      the tiles to render found and updated in order, and the cache swept
      (with the intended sweep; see `SweepAsWritten`). The layers of the
      render list are updated next, but the list was emptied at the start of
      the frame and no tile update pushes to it, so there are none. */
  function Update(ts: Tileset, frame: Frame, env: FrameEnv): (r: (Tileset, seq<DrawCommand>))
    requires Inv(ts) && ValidView(frame.view)
    ensures !ts.ready || !ts.show ==> r == (ts, frame.commands)
  {
    if !ts.ready || !ts.show then (ts, frame.commands)
    else
      var v := Visited(ts, frame, env);
      var e := ExpiredTiles(v.1.tree, v.0.cache, frame.frameNumber);
      SweepTilesIn(v.1.tree, v.0.cache, frame.frameNumber);
      (WithPass(v.0, v.1.(tree := Sweep(v.1.tree, e))), v.1.commands)
  }

  /** The sweep keeps every tile in its place and well formed. */
  lemma SweepKeepsTiles(tree: Tree, e: seq<nat>)
    requires TilesOk(tree) && forall i | 0 <= i < |e| :: e[i] in tree.tiles
    ensures SameTree(tree, Sweep(tree, e)) && TilesOk(Sweep(tree, e))
  {
    if |e| > 100 {
      ExpireAllKeepsShape(tree, e[..|e| - 50]);
      var r := Sweep(tree, e);
      forall k | k in r.tiles ensures TileOk(r.tiles[k]) {
        assert TileOk(tree.tiles[k]);
      }
    }
  }

  /** `update` keeps the tileset invariant. */
  lemma UpdateKeepsInv(ts: Tileset, frame: Frame, env: FrameEnv)
    requires Inv(ts) && ValidView(frame.view)
    ensures Inv(Update(ts, frame, env).0)
  {
    if ts.ready && ts.show {
      var v := Visited(ts, frame, env);
      VisitedKeepsInv(ts, frame, env);
      var mid := WithPass(v.0, v.1);
      var e := ExpiredTiles(v.1.tree, v.0.cache, frame.frameNumber);
      SweepTilesIn(v.1.tree, v.0.cache, frame.frameNumber);
      var swept := Sweep(v.1.tree, e);
      SweepKeepsTiles(v.1.tree, e);
      assert mid.tree == v.1.tree && mid.inflight == v.1.inflight && mid.numLoading == v.1.numLoading;
      WithPassKeepsInv(mid, v.1.(tree := swept));
      assert WithPass(mid, v.1.(tree := swept)) == Update(ts, frame, env).0;
    }
  }

  /** The expired tiles are tiles of the tree. */
  lemma SweepTilesIn(tree: Tree, cache: seq<nat>, frameNumber: int)
    requires forall i | 0 <= i < |cache| :: cache[i] in tree.tiles
    ensures forall i | 0 <= i < |ExpiredTiles(tree, cache, frameNumber)| :: ExpiredTiles(tree, cache, frameNumber)[i] in tree.tiles
  {
    ExpiredTilesSpec(tree, cache, frameNumber);
  }

  /** No more tiles start building in a frame than the cap allows, and none
      when it is undefined. */
  lemma UpdateInitializing(ts: Tileset, frame: Frame, env: FrameEnv)
    requires Inv(ts) && ValidView(frame.view) && ts.ready && ts.show
    ensures 0 <= Update(ts, frame, env).0.numInitializing <= Ceiling(0, ts.maxInitializing)
  {
    var v := Visited(ts, frame, env);
    var ts1 := v.0;
    assert ts1.numInitializing == 0 && ts1.maxInitializing == ts.maxInitializing;
    UpdateTilesInitializing(PassOf(ts1, frame.commands), ts1.tilesToRender, CtxOf(ts1, frame, env));
    assert Update(ts, frame, env).0.numInitializing == v.1.numInitializing;
  }

  /** In a frame the loading counter grows to at most one more than its
      cap, and not at all when the cap is undefined. */
  lemma UpdateLoading(ts: Tileset, frame: Frame, env: FrameEnv)
    requires Inv(ts) && ValidView(frame.view) && ts.ready && ts.show
    ensures ts.numLoading <= Update(ts, frame, env).0.numLoading <=
              Ceiling(ts.numLoading, if ts.maxLoading.Some? then Some(ts.maxLoading.value + 1) else None)
  {
    var v := Visited(ts, frame, env);
    var ts1 := v.0;
    assert ts1.numLoading == ts.numLoading && ts1.maxLoading == ts.maxLoading;
    UpdateTilesLoading(PassOf(ts1, frame.commands), ts1.tilesToRender, CtxOf(ts1, frame, env));
    assert Update(ts, frame, env).0.numLoading == v.1.numLoading;
  }

  /** After `update` the render list is empty: tiles push their layers only
      when rendered. */
  lemma UpdateEmptiesRenderList(ts: Tileset, frame: Frame, env: FrameEnv)
    requires Inv(ts) && ValidView(frame.view) && ts.ready && ts.show
    ensures RenderList.GetList(Update(ts, frame, env).0.renderList) == []
  {
  }

  /** The sweep never touches a tile visited in this frame. */
  lemma SweepSparesVisited(tree: Tree, cache: seq<nat>, frameNumber: int, k: nat)
    requires forall i | 0 <= i < |cache| :: cache[i] in tree.tiles
    requires k in tree.tiles && tree.tiles[k].lastVisitTime == frameNumber
    ensures var e := ExpiredTiles(tree, cache, frameNumber);
            (forall i | 0 <= i < |e| :: e[i] in tree.tiles) && Sweep(tree, e).tiles[k] == tree.tiles[k]
  {
    var e := ExpiredTiles(tree, cache, frameNumber);
    ExpiredTilesSpec(tree, cache, frameNumber);
    assert k !in e;
    assert k !in e[..Max0(|e| - 50)];
    SweepSpec(tree, e, k);
  }

  /** Every tile to render of the frame was stamped with the frame number,
      is not expired, and was left alone by the sweep: a tile visited this
      frame is never evicted. */
  lemma UpdateKeepsVisited(ts: Tileset, frame: Frame, env: FrameEnv, i: nat)
    requires Inv(ts) && ValidView(frame.view) && ts.ready && ts.show
    requires i < |Update(ts, frame, env).0.tilesToRender|
    ensures var r := Update(ts, frame, env).0;
            var k := r.tilesToRender[i];
            k in r.tree.tiles && r.tree.tiles[k].lastVisitTime == frame.frameNumber && !r.tree.tiles[k].expired &&
            r.tree.tiles[k] == Visited(ts, frame, env).1.tree.tiles[k]
  {
    var v := Visited(ts, frame, env);
    var ts1 := v.0;
    UpdateTilesStamps(PassOf(ts1, frame.commands), ts1.tilesToRender, CtxOf(ts1, frame, env), i);
    SweepSparesVisited(v.1.tree, v.0.cache, frame.frameNumber, ts1.tilesToRender[i]);
  }

  /** With the level of detail suspended, the frame keeps last frame's tiles
      to render and cache. */
  lemma UpdateSuspended(ts: Tileset, frame: Frame, env: FrameEnv)
    requires Inv(ts) && ValidView(frame.view) && frame.suspendLodUpdate
    ensures Update(ts, frame, env).0.tilesToRender == ts.tilesToRender
    ensures Update(ts, frame, env).0.cache == ts.cache
  {
  }

  /** Chosen tiles stay chosen when only their state changes. */
  lemma ChosenSameTree(t1: Tree, t2: Tree, k: nat, v: View, maxLevel: real)
    requires SameTree(t1, t2) && Chosen(t1, k, v, maxLevel)
    ensures Chosen(t2, k, v, maxLevel) && DistanceKey(t1)(k) == DistanceKey(t2)(k)
  {
    assert SameShape(t1.tiles[k], t2.tiles[k]);
  }

  /** Without suspension, the frame's tiles to render are ordered by distance
      to the camera and each is one the walk chose under the frame's view. */
  lemma UpdateRendersChosen(ts: Tileset, frame: Frame, env: FrameEnv)
    requires Inv(ts) && ValidView(frame.view) && ts.ready && ts.show && !frame.suspendLodUpdate
    ensures var r := Update(ts, frame, env).0;
            SortedBy(r.tilesToRender, DistanceKey(r.tree)) &&
            forall i | 0 <= i < |r.tilesToRender| :: Chosen(r.tree, r.tilesToRender[i], frame.view, ts.maximumLevel)
  {
    var v := Visited(ts, frame, env);
    var ts1 := v.0;
    LodRenders(Begin(ts), frame);
    UpdateTilesFrame(PassOf(ts1, frame.commands), ts1.tilesToRender, CtxOf(ts1, frame, env));
    var e := ExpiredTiles(v.1.tree, v.0.cache, frame.frameNumber);
    SweepTilesIn(v.1.tree, v.0.cache, frame.frameNumber);
    SweepKeepsTiles(v.1.tree, e);
    var r := Update(ts, frame, env).0;
    assert r.tree == Sweep(v.1.tree, e) && r.tilesToRender == ts1.tilesToRender;
    forall i | 0 <= i < |r.tilesToRender|
      ensures Chosen(r.tree, r.tilesToRender[i], frame.view, ts.maximumLevel)
      ensures DistanceKey(ts1.tree)(r.tilesToRender[i]) == DistanceKey(r.tree)(r.tilesToRender[i])
    {
      ChosenSameTree(ts1.tree, v.1.tree, r.tilesToRender[i], frame.view, ts.maximumLevel);
      ChosenSameTree(v.1.tree, r.tree, r.tilesToRender[i], frame.view, ts.maximumLevel);
    }
  }

  // ---------------------------------------------------------------------
  // The end of a fetch pass.

  /** The end of the fetch pass queued at `i`: the tile takes the data its
      requests produced (`results`; `None` for a failed request), the loading
      counter drops, and the pass leaves the queue. */
  function CompleteFetch(ts: Tileset, i: nat, results: string -> Option<TileData>): (r: Tileset)
    requires Inv(ts) && i < |ts.inflight|
    ensures r == ts.(tree := r.tree, numLoading := r.numLoading, inflight := r.inflight)
    ensures r.numLoading == ts.numLoading - 1 && r.inflight == RemoveAt(ts.inflight, i)
    ensures ts.inflight[i].key in r.tree.tiles && r.tree.nextKey == ts.tree.nextKey
    ensures r.tree.tiles == ts.tree.tiles[ts.inflight[i].key := r.tree.tiles[ts.inflight[i].key]]
    ensures r.tree.tiles[ts.inflight[i].key].state == Loaded
  {
    var f := ts.inflight[i];
    var done := CompleteLoad(ts.tree.tiles[f.key], Counters(ts.numLoading, ts.numInitializing), f.ids, results);
    ts.(tree := Tree(ts.tree.tiles[f.key := done.0], ts.tree.nextKey), numLoading := done.1.numLoading,
        inflight := RemoveAt(ts.inflight, i))
  }

  /** The queue without its entry at `i`, the others in order. */
  function RemoveAt(q: seq<Fetch>, i: nat): (r: seq<Fetch>)
    requires i < |q|
    ensures |r| == |q| - 1
    ensures forall j | 0 <= j < |r| :: r[j] == if j < i then q[j] else q[j + 1]
  {
    q[..i] + q[i + 1..]
  }

  /** Replacing one tile by a well-formed one of the same shape. */
  lemma ReplaceTile(tree: Tree, key: nat, t: Tile)
    requires TilesOk(tree) && key in tree.tiles && SameShape(tree.tiles[key], t) && TileOk(t)
    ensures var r := Tree(tree.tiles[key := t], tree.nextKey); SameTree(tree, r) && TilesOk(r)
  {
  }

  /** Completing a fetch keeps the tileset invariant: the loading counter
      still counts the queue. */
  lemma CompleteFetchKeepsInv(ts: Tileset, i: nat, results: string -> Option<TileData>)
    requires Inv(ts) && i < |ts.inflight|
    ensures Inv(CompleteFetch(ts, i, results))
  {
    var r := CompleteFetch(ts, i, results);
    var key := ts.inflight[i].key;
    assert TileOk(ts.tree.tiles[key]);
    ReplaceTile(ts.tree, key, r.tree.tiles[key]);
    assert r.tree == Tree(ts.tree.tiles[key := r.tree.tiles[key]], ts.tree.nextKey);
    forall j | 0 <= j < |r.inflight| ensures r.inflight[j].key in r.tree.tiles {
      assert r.inflight[j] in ts.inflight;
    }
    WithPassKeepsInv(ts, Pass(r.tree, r.numLoading, r.numInitializing, r.inflight, []));
  }

  // ---------------------------------------------------------------------
  // The tile hierarchy across frames.

  /** Tiles of the same shape have the same children. */
  lemma SameTreeForest(t1: Tree, t2: Tree)
    requires SameTree(t1, t2) && Forest(t1)
    ensures Forest(t2)
  {
    forall p | p in t2.tiles ensures t2.tiles[p].children == t1.tiles[p].children {
      assert SameShape(t1.tiles[p], t2.tiles[p]);
    }
  }

  /** The walk keeps the hierarchy, and its sorted result lists no tile
      twice. */
  lemma LodKeepsHierarchy(ts: Tileset, frame: Frame)
    requires Inv(ts) && Hierarchy(ts) && ts.ready && ValidView(frame.view)
    ensures Hierarchy(Lod(ts, frame))
  {
    if !frame.suspendLodUpdate {
      RootsAtLevelZero(ts);
      GetTilesToRenderDistinct(ts.tree, ts.cache, ts.roots, frame.view, ts.maximumLevel);
      var w := GetTilesToRender(ts.tree, ts.cache, ts.roots, frame.view, ts.maximumLevel).value;
      DistinctPerm(w.accepted, SortBy(w.accepted, DistanceKey(w.tree)));
    }
  }

  /** A frame keeps the hierarchy: the walk renders each tile at most once,
      and neither the tile updates nor the sweep change any tile's
      children. */
  lemma UpdateKeepsHierarchy(ts: Tileset, frame: Frame, env: FrameEnv)
    requires Inv(ts) && Hierarchy(ts) && ValidView(frame.view)
    ensures Hierarchy(Update(ts, frame, env).0)
  {
    if ts.ready && ts.show {
      var v := Visited(ts, frame, env);
      var ts1 := v.0;
      LodKeepsHierarchy(Begin(ts), frame);
      UpdateTilesFrame(PassOf(ts1, frame.commands), ts1.tilesToRender, CtxOf(ts1, frame, env));
      SameTreeForest(ts1.tree, v.1.tree);
      var e := ExpiredTiles(v.1.tree, v.0.cache, frame.frameNumber);
      SweepTilesIn(v.1.tree, v.0.cache, frame.frameNumber);
      SweepKeepsTiles(v.1.tree, e);
      SameTreeForest(v.1.tree, Sweep(v.1.tree, e));
      var r := Update(ts, frame, env).0;
      assert r.tree == Sweep(v.1.tree, e) && r.roots == ts1.roots && r.tilesToRender == ts1.tilesToRender;
    }
  }

  /** Completing a fetch keeps the hierarchy. */
  lemma CompleteFetchKeepsHierarchy(ts: Tileset, i: nat, results: string -> Option<TileData>)
    requires Inv(ts) && Hierarchy(ts) && i < |ts.inflight|
    ensures Hierarchy(CompleteFetch(ts, i, results))
  {
    var r := CompleteFetch(ts, i, results);
    var key := ts.inflight[i].key;
    assert TileOk(ts.tree.tiles[key]);
    ReplaceTile(ts.tree, key, r.tree.tiles[key]);
    assert r.tree == Tree(ts.tree.tiles[key := r.tree.tiles[key]], ts.tree.nextKey);
    SameTreeForest(ts.tree, r.tree);
  }
}
