/** Style layers (Source/style/StyleLayer.js) and their paint/layout property
    groups (Source/style/StyleLayerProperties.js). Expression evaluation and the
    feature filter belong to the style-spec library and are oracles here. */
module Style {
  import opened Wrappers
  import opened Features

  /** A normalised property expression, built by the style-spec library from
      the given or default JSON value. */
  datatype Expr = Expr(json: Value)

  /** One paint or layout group: property name -> expression, holding exactly
      the names the style-spec reference lists for that group and layer type. */
  datatype Properties = Properties(data: map<string, Value>, props: map<string, Expr>)

  /** The group constructor: every property the reference lists gets the given
      value, or the reference default when none is given; names the reference
      does not list are dropped. */
  function MakeProperties(reference: map<string, Value>, given: map<string, Value>): (p: Properties)
    ensures p.props.Keys == reference.Keys
    ensures forall k | k in reference :: p.props[k] == Expr(if k in given then given[k] else reference[k])
  {
    Properties(given, map k | k in reference :: Expr(if k in given then given[k] else reference[k]))
  }

  /** `getDataValue(name, zoom, feature)`: `undefined` for a name the group does
      not hold, else whatever the evaluator returns. */
  function GetDataValue(p: Properties, name: string, zoom: real, feature: Feature,
                        eval: (Expr, real, Option<Feature>) -> Value): (r: Option<Value>)
    ensures name !in p.props <==> r == None
    ensures name in p.props ==> r == Some(eval(p.props[name], zoom, Some(feature)))
  {
    if name in p.props then Some(eval(p.props[name], zoom, Some(feature))) else None
  }

  /** `getDataConstValue(name, zoom)`: as above, evaluated without a feature. */
  function GetDataConstValue(p: Properties, name: string, zoom: real,
                             eval: (Expr, real, Option<Feature>) -> Value): (r: Option<Value>)
    ensures name !in p.props <==> r == None
    ensures name in p.props ==> r == Some(eval(p.props[name], zoom, None))
  {
    if name in p.props then Some(eval(p.props[name], zoom, None)) else None
  }

  /** A name the reference does not list reads as `undefined`, even when the
      style document gave a value for it. */
  lemma UnlistedPropertyIsUndefined(reference: map<string, Value>, given: map<string, Value>, name: string,
                                    zoom: real, f: Feature, eval: (Expr, real, Option<Feature>) -> Value)
    requires name !in reference
    ensures GetDataValue(MakeProperties(reference, given), name, zoom, f, eval) == None
    ensures GetDataConstValue(MakeProperties(reference, given), name, zoom, eval) == None
  {
  }

  /** The JSON filter of a layer, kept as given; the compiled filter is an oracle. */
  datatype FilterSpec = FilterSpec(json: Value)

  /** A layer entry of the style document. */
  datatype LayerSpec = LayerSpec(
    id: string,
    layerType: string,
    minzoom: Option<real>,
    maxzoom: Option<real>,
    source: Option<string>,
    sourceLayer: Option<string>,
    filter: Option<FilterSpec>,
    paint: map<string, Value>,
    layout: map<string, Value>)

  /** A `StyleLayer` instance. */
  datatype StyleLayer = StyleLayer(
    id: string,
    layerType: string,
    minzoom: real,
    maxzoom: real,
    source: Option<string>,
    sourceLayer: Option<string>,
    filter: Option<FilterSpec>,
    paint: Properties,
    layout: Properties)

  /** JavaScript `v || d` on a possibly missing number: missing and 0 are falsy. */
  function OrDefault(v: Option<real>, d: real): real {
    if v.Some? && v.value != 0.0 then v.value else d
  }

  /** The style-spec reference tables for the paint and layout groups of a layer
      type (`latest['paint_' + type]`, `latest['layout_' + type]`). */
  datatype Reference = Reference(paint: string -> map<string, Value>, layout: string -> map<string, Value>)

  /** `new StyleLayer(spec)`. The filter is kept only when it is truthy:
      a `false`, `0`, `""` or `null` filter leaves the layer without one, so
      every feature passes. */
  function NewStyleLayer(spec: LayerSpec, reference: Reference): (s: StyleLayer)
    ensures s.id == spec.id && s.layerType == spec.layerType
    ensures s.source == spec.source && s.sourceLayer == spec.sourceLayer
    ensures (spec.minzoom == None || spec.minzoom == Some(0.0)) ==> s.minzoom == 0.0
    ensures (spec.minzoom.Some? && spec.minzoom.value != 0.0) ==> s.minzoom == spec.minzoom.value
    ensures (spec.maxzoom == None || spec.maxzoom == Some(0.0)) ==> s.maxzoom == 24.0
    ensures (spec.maxzoom.Some? && spec.maxzoom.value != 0.0) ==> s.maxzoom == spec.maxzoom.value
    ensures s.filter.Some? <==> spec.filter.Some? && Truthy(spec.filter.value.json)
    ensures s.filter.Some? ==> s.filter == spec.filter
    ensures s.paint.props.Keys == reference.paint(spec.layerType).Keys
    ensures s.layout.props.Keys == reference.layout(spec.layerType).Keys
  {
    StyleLayer(
      spec.id, spec.layerType,
      OrDefault(spec.minzoom, 0.0), OrDefault(spec.maxzoom, 24.0),
      spec.source, spec.sourceLayer,
      if spec.filter.Some? && Truthy(spec.filter.value.json) then spec.filter else None,
      MakeProperties(reference.paint(spec.layerType), spec.paint),
      MakeProperties(reference.layout(spec.layerType), spec.layout))
  }

  /** An RGBA colour with real components. */
  datatype Color = Color(r: real, g: real, b: real, a: real)

  /** What the style-spec library does to colours it returns: colour channels
      multiplied by alpha. */
  function Premultiply(c: Color): Color {
    Color(c.r * c.a, c.g * c.a, c.b * c.a, c.a)
  }

  /** `convertColor`: undoes the library's alpha premultiplication; alpha is
      kept, and a colour whose alpha is not positive is returned unchanged. */
  function ConvertColor(c: Color): (r: Color)
    ensures r.a == c.a
    ensures c.a <= 0.0 ==> r == c
    ensures c.a > 0.0 ==> r.r * c.a == c.r && r.g * c.a == c.g && r.b * c.a == c.b
  {
    var alphaScalar := if c.a > 0.0 then 1.0 / c.a else 1.0;
    Color(c.r * alphaScalar, c.g * alphaScalar, c.b * alphaScalar, c.a)
  }

  /** For a positive alpha, converting a premultiplied colour gives back the
      original colour. */
  lemma ConvertColorUndoesPremultiply(c: Color)
    requires c.a > 0.0
    ensures ConvertColor(Premultiply(c)) == c
  {
    var p := Premultiply(c);
    var r := ConvertColor(p);
    assert r.r * c.a == c.r * c.a;
    assert r.g * c.a == c.g * c.a;
    assert r.b * c.a == c.b * c.a;
  }
}
