/** The vector data source (Source/sources/VectorSource.js): TileJSON metadata
    merge in `init`, and tile-URL templating, relative-path prefixing and
    failure absorption in `requestTile`. The network fetch and the Pbf decoding
    are oracles. Source parameters are the style document's JSON object. */
module VectorSource {
  import opened Wrappers
  import opened Features
  import opened Strings

  /** The tile URL: `{x}`, `{y}`, `{z}` replaced in turn, first occurrence each. */
  function TileUrl(template: string, x: nat, y: nat, z: nat): string {
    ReplaceFirst(ReplaceFirst(ReplaceFirst(template, "{x}", NatToString(x)), "{y}", NatToString(y)), "{z}", NatToString(z))
  }

  // ---------------------------------------------------------------------
  // Relative URLs.

  predicate StartsWith(s: string, prefix: string) {
    |prefix| <= |s| && s[..|prefix|] == prefix
  }

  /** The test `/^((http)|(https)|(data:)|\/)/`. */
  predicate IsAbsolute(url: string) {
    StartsWith(url, "http") || StartsWith(url, "https") || StartsWith(url, "data:") || StartsWith(url, "/")
  }

  /** A URL that passes the test is used as is; any other gets the style
      document's directory prepended. */
  function ResolveUrl(path: string, url: string): (r: string)
    ensures IsAbsolute(url) ==> r == url
    ensures !IsAbsolute(url) ==> r == path + url
  {
    if IsAbsolute(url) then url else path + url
  }

  /** Prefixing is idempotent once the path itself is absolute. */
  lemma ResolveUrlIdempotent(path: string, url: string)
    requires IsAbsolute(path)
    ensures ResolveUrl(path, ResolveUrl(path, url)) == ResolveUrl(path, url)
  {
    var r := ResolveUrl(path, url);
    if !IsAbsolute(url) {
      assert r == path + url;
      if StartsWith(path, "http") { assert r[..4] == path[..4]; }
      else if StartsWith(path, "https") { assert r[..5] == path[..5]; }
      else if StartsWith(path, "data:") { assert r[..5] == path[..5]; }
      else { assert r[..1] == path[..1]; }
    }
  }

  // ---------------------------------------------------------------------
  // Tile requests.

  /** `tiles[0]` when `tiles` is a non-empty array whose first entry is a string. */
  function FirstTemplate(params: map<string, Value>): Option<string> {
    if "tiles" in params && params["tiles"].Arr? && |params["tiles"].items| > 0 && params["tiles"].items[0].Str?
    then Some(params["tiles"].items[0].s)
    else None
  }

  /** The outcome of `requestTile`: the URL fetched, if any, and the decoded tile. */
  datatype TileRequest = TileRequest(fetched: Option<string>, data: Option<TileData>)

  /** `requestTile(x, y, z)`. `fetch` stands for fetching and decoding the URL;
      `None` is a failed fetch or decode, which the source swallows. */
  function RequestTile(params: map<string, Value>, path: string, x: nat, y: nat, z: nat,
                       fetch: string -> Option<TileData>): (r: TileRequest)
    ensures FirstTemplate(params).None? ==> r == TileRequest(None, None)
    ensures FirstTemplate(params).Some? ==>
              r.fetched == Some(ResolveUrl(path, TileUrl(FirstTemplate(params).value, x, y, z))) &&
              r.data == fetch(r.fetched.value)
    ensures r.fetched.None? ==> r.data.None?
  {
    match FirstTemplate(params)
    case None => TileRequest(None, None)
    case Some(template) =>
      var url := ResolveUrl(path, TileUrl(template, x, y, z));
      TileRequest(Some(url), fetch(url))
  }

  /** A template without any placeholder is fetched verbatim (after prefixing). */
  lemma PlainTemplateUnchanged(template: string, x: nat, y: nat, z: nat)
    requires !Occurs(template, "{x}") && !Occurs(template, "{y}") && !Occurs(template, "{z}")
    ensures TileUrl(template, x, y, z) == template
  {
  }

  /** With one placeholder of each kind in the order x, y, z, the three
      coordinates land exactly where the placeholders were. */
  lemma TemplateSubstitution(a: string, b: string, c: string, d: string, x: nat, y: nat, z: nat)
    requires NoOpenBraceIn(a) && NoOpenBraceIn(b) && NoOpenBraceIn(c)
    ensures TileUrl(a + "{x}" + b + "{y}" + c + "{z}" + d, x, y, z)
            == a + NatToString(x) + b + NatToString(y) + c + NatToString(z) + d
  {
    DigitsHaveNoBrace(x);
    DigitsHaveNoBrace(y);
    ReplaceInTurn(a, "{x}", b, "{y}", c, "{z}", d, NatToString(x), NatToString(y), NatToString(z));
  }

  // ---------------------------------------------------------------------
  // Metadata.

  /** `url` when it is a non-empty string. */
  function UrlOf(params: map<string, Value>): Option<string> {
    if "url" in params && params["url"].Str? && params["url"].s != "" then Some(params["url"].s) else None
  }

  /** Metadata is requested only when `url` is set and `tiles` is falsy. */
  predicate WantsMetadata(params: map<string, Value>) {
    UrlOf(params).Some? && !TruthyField(params, "tiles")
  }

  /** Copy every metadata member over a falsy or missing parameter; truthy
      parameters are never overwritten. */
  function MergeMetadata(params: map<string, Value>, metadata: map<string, Value>): (r: map<string, Value>)
    ensures r.Keys == params.Keys + metadata.Keys
    ensures forall k | TruthyField(params, k) :: r[k] == params[k]
    ensures forall k | k in metadata && !TruthyField(params, k) :: r[k] == metadata[k]
    ensures forall k | k in params && k !in metadata :: r[k] == params[k]
  {
    map k | k in params.Keys + metadata.Keys ::
      if k in metadata && !TruthyField(params, k) then metadata[k] else params[k]
  }

  /** Merging the same metadata again changes nothing. */
  lemma MergeMetadataIdempotent(params: map<string, Value>, metadata: map<string, Value>)
    ensures MergeMetadata(MergeMetadata(params, metadata), metadata) == MergeMetadata(params, metadata)
  {
  }

  /** The outcome of `init`: the metadata URL fetched, if any, and the parameters after merging. */
  datatype InitResult = InitResult(fetched: Option<string>, params: map<string, Value>)

  /** `init()`. `fetchJson` is the metadata request; `None` is a failure, which
      is reported on the error event and leaves the parameters as they were. */
  function Init(params: map<string, Value>, path: string, fetchJson: string -> Option<map<string, Value>>): (r: InitResult)
    ensures !WantsMetadata(params) ==> r == InitResult(None, params)
    ensures WantsMetadata(params) ==> r.fetched == Some(ResolveUrl(path, UrlOf(params).value))
    ensures WantsMetadata(params) && fetchJson(r.fetched.value).None? ==> r.params == params
    ensures WantsMetadata(params) && fetchJson(r.fetched.value).Some? ==>
              r.params == MergeMetadata(params, fetchJson(r.fetched.value).value)
  {
    if !WantsMetadata(params) then InitResult(None, params)
    else
      var url := ResolveUrl(path, UrlOf(params).value);
      match fetchJson(url)
      case None => InitResult(Some(url), params)
      case Some(metadata) => InitResult(Some(url), MergeMetadata(params, metadata))
  }

  /** A source described only by a TileJSON URL gets its tile templates from
      the metadata, after which tile requests use them. */
  lemma MetadataSuppliesTiles(params: map<string, Value>, path: string,
                              fetchJson: string -> Option<map<string, Value>>, template: string)
    requires WantsMetadata(params)
    requires var u := ResolveUrl(path, UrlOf(params).value);
             fetchJson(u).Some? && "tiles" in fetchJson(u).value &&
             fetchJson(u).value["tiles"] == Arr([Str(template)])
    ensures FirstTemplate(Init(params, path, fetchJson).params) == Some(template)
  {
  }
}
