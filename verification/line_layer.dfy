/** The polyline flattening of `LineRenderLayer.createPrimitve`
    (Source/layers/LineRenderLayer.js): which coordinate lists of which
    features become polylines. The builder is never called from `update`,
    which is the base `RenderLayers.Update`. Width and colour are evaluated per
    feature by the style library and are not modelled. */
module LineLayer {
  import opened Wrappers
  import opened Features

  /** The coordinate lists a geometry offers to `addPolyline`, in order. */
  function CandidateLines(g: Geometry): (r: seq<seq<Position>>)
    ensures g.LineString? ==> r == [g.line]
    ensures g.MultiLineString? ==> r == g.lines
    ensures g.Polygon? ==> r == g.rings
    ensures g.Point? || g.MultiPoint? ==> r == []
  {
    match g
    case LineString(line) => [line]
    case MultiLineString(lines) => lines
    case Polygon(rings) => rings
    case MultiPolygon(polygons) => Concat(polygons)
    case _ => []
  }

  /** The concatenation of a sequence of sequences. */
  function Concat<T>(ss: seq<seq<T>>): (r: seq<T>)
    decreases |ss|
  {
    if |ss| == 0 then [] else ss[0] + Concat(ss[1..])
  }

  /** `addPolyline` keeps only lists of at least two positions. */
  function KeepDrawable(lines: seq<seq<Position>>): (r: seq<seq<Position>>)
    ensures |r| <= |lines|
    ensures forall i | 0 <= i < |r| :: |r[i]| >= 2
    ensures forall l | l in r :: l in lines
    ensures forall l | l in lines && |l| >= 2 :: l in r
    decreases |lines|
  {
    if |lines| == 0 then []
    else if |lines[0]| < 2 then KeepDrawable(lines[1..])
    else [lines[0]] + KeepDrawable(lines[1..])
  }

  /** Keeping distributes over concatenation: the kept lists of `a` come
      first, in their order, then those of `b`. */
  lemma {:induction false} KeepDrawableAppend(a: seq<seq<Position>>, b: seq<seq<Position>>)
    ensures KeepDrawable(a + b) == KeepDrawable(a) + KeepDrawable(b)
    decreases |a|
  {
    if |a| == 0 {
      assert a + b == b;
    } else {
      assert (a + b)[0] == a[0];
      assert (a + b)[1..] == a[1..] + b;
      KeepDrawableAppend(a[1..], b);
    }
  }

  /** One list is kept exactly when it has two positions or more. */
  lemma KeepDrawableOne(l: seq<Position>)
    ensures KeepDrawable([l]) == if |l| >= 2 then [l] else []
  {
    assert [l][1..] == [];
  }

  /** The kept lists of each polygon, polygon by polygon. */
  function KeepEach(polygons: seq<seq<seq<Position>>>): (r: seq<seq<seq<Position>>>)
    ensures |r| == |polygons|
  {
    seq(|polygons|, i requires 0 <= i < |polygons| => KeepDrawable(polygons[i]))
  }

  /** Keeping the rings of all polygons at once keeps, polygon after polygon,
      each polygon's drawable rings in order. */
  lemma {:induction false} KeepDrawableConcat(polygons: seq<seq<seq<Position>>>)
    ensures KeepDrawable(Concat(polygons)) == Concat(KeepEach(polygons))
    decreases |polygons|
  {
    if |polygons| > 0 {
      var rest := polygons[1..];
      ConcatHead(polygons);
      KeepDrawableAppend(polygons[0], Concat(rest));
      KeepDrawableConcat(rest);
      KeepEachHead(polygons);
      ConcatHead(KeepEach(polygons));
    }
  }

  lemma ConcatHead<T>(ss: seq<seq<T>>)
    requires |ss| > 0
    ensures Concat(ss) == ss[0] + Concat(ss[1..])
  {
  }

  lemma KeepEachHead(polygons: seq<seq<seq<Position>>>)
    requires |polygons| > 0
    ensures KeepEach(polygons)[0] == KeepDrawable(polygons[0]) && KeepEach(polygons)[1..] == KeepEach(polygons[1..])
  {
    var r, t := KeepEach(polygons), KeepEach(polygons[1..]);
    forall i | 0 <= i < |t| ensures r[1..][i] == t[i] {
      assert polygons[1..][i] == polygons[i + 1];
    }
  }

  /** The polylines of the features, feature by feature and in coordinate
      order; a feature without geometry contributes nothing. */
  function Polylines(features: seq<Feature>): (r: seq<seq<Position>>)
    ensures forall i | 0 <= i < |r| :: |r[i]| >= 2
    decreases |features|
  {
    if |features| == 0 then []
    else
      var here := if features[0].geometry.None? then [] else KeepDrawable(CandidateLines(features[0].geometry.value));
      here + Polylines(features[1..])
  }

  /** A line string yields exactly one polyline when it has two positions or
      more, and none otherwise. */
  lemma LineStringPolyline(f: Feature, line: seq<Position>)
    requires f.geometry == Some(LineString(line))
    ensures |line| >= 2 ==> Polylines([f]) == [line]
    ensures |line| < 2 ==> Polylines([f]) == []
  {
    assert [f][1..] == [];
  }

  /** A multi-line string or a polygon yields one polyline per drawable
      line or ring, in order. */
  lemma RingsPolylines(f: Feature, rings: seq<seq<Position>>)
    requires f.geometry == Some(MultiLineString(rings)) || f.geometry == Some(Polygon(rings))
    ensures Polylines([f]) == KeepDrawable(rings)
  {
    assert [f][1..] == [];
    assert CandidateLines(f.geometry.value) == rings;
    assert Polylines([f]) == KeepDrawable(rings) + Polylines([]);
  }

  /** A multi-polygon yields, polygon after polygon, one polyline per
      drawable ring, in order. */
  lemma {:induction false} MultiPolygonRings(f: Feature, polygons: seq<seq<seq<Position>>>)
    requires f.geometry == Some(MultiPolygon(polygons))
    ensures Polylines([f]) == Concat(KeepEach(polygons))
  {
    assert [f][1..] == [];
    KeepDrawableConcat(polygons);
  }

  /** Flattening distributes over concatenation of feature lists, so the
      polylines come out feature by feature. */
  lemma {:induction false} PolylinesAppend(a: seq<Feature>, b: seq<Feature>)
    ensures Polylines(a + b) == Polylines(a) + Polylines(b)
    decreases |a|
  {
    if |a| == 0 {
      assert a + b == b;
    } else {
      assert (a + b)[1..] == a[1..] + b;
      PolylinesAppend(a[1..], b);
    }
  }

  /** Features without geometry or with point geometry yield nothing. */
  lemma {:induction false} PointsYieldNothing(features: seq<Feature>)
    requires forall i | 0 <= i < |features| ::
               features[i].geometry.None? || features[i].geometry.value.Point? || features[i].geometry.value.MultiPoint?
    ensures Polylines(features) == []
    decreases |features|
  {
    if |features| > 0 {
      PointsYieldNothing(features[1..]);
    }
  }
}
