/** Decoded vector-tile features, as far as the scheduler and the visualizers
    look at them. Decoding itself (Pbf, `loadGeometry`, `toGeoJSON`) is an
    external collaborator; a feature here already carries its geometry. */
module Features {
  import opened Wrappers

  /** A coordinate pair; tile-local for fill geometry, degrees for lines and labels. */
  datatype Position = Position(x: real, y: real)

  /** The GeoJSON geometry kinds a decoded feature can carry. */
  datatype Geometry =
    | Point(p: Position)
    | MultiPoint(points: seq<Position>)
    | LineString(line: seq<Position>)
    | MultiLineString(lines: seq<seq<Position>>)
    | Polygon(rings: seq<seq<Position>>)
    | MultiPolygon(polygons: seq<seq<seq<Position>>>)

  /** A decoded feature: its id, its geometry (absent for a feature that has none)
      and its properties, already in their string form. */
  datatype Feature = Feature(id: nat, geometry: Option<Geometry>, properties: map<string, string>)

  /** One parsed tile of one source: source-layer name -> its features. */
  type TileData = map<string, seq<Feature>>
}
