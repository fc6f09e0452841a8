/**
 * Decoded vector tiles: styling of their features after decoding
 * (rendermaps/tile.go `Tile.Load`), the in-memory tile cache of
 * `TileSource.GetTile`, and `baseZoom`.
 *
 * Gzip and Mapbox-vector-tile decoding are not modelled: `Load` receives the
 * decoded layers, or `None` when decoding failed. The R-tree of a tile is the
 * sequence of its entries in insertion order. The HTTP and disk fetch of
 * `GetTile` is an oracle argument.
 */
module Tiles {

  import opened Wrappers
  import opened Seqs
  import opened Decimal
  import opened Filters
  import opened Styling
  import opened Geometry
  import Colors

  datatype GeomKind =
    | PointGeom | MultiPointGeom
    | LineStringGeom | MultiLineStringGeom
    | PolygonGeom | MultiPolygonGeom
    | OtherGeom

  /** A decoded geometry: its kind and its bounding box (the coordinates themselves are not needed here). */
  datatype Geom = Geom(kind: GeomKind, bound: Box)

  /** A decoded feature; `None` properties stand for a nil map. */
  datatype Feature = Feature(geom: Geom, props: Option<Props>)

  datatype MvtLayer = MvtLayer(name: string, extent: nat, features: seq<Feature>)

  /** The zero `mvt.Layer` a fresh tile starts with. */
  const EmptyLayer := MvtLayer("", 0, [])

  datatype StyledFeature = StyledFeature(geom: Geom, style: StyleLayer, color: string, labelText: string)

  /** An R-tree item: the feature's bounding box and the styled feature. */
  datatype Entry = Entry(box: Box, item: StyledFeature)

  /** The value `Load` stores under `$type`, if any. */
  function TypeName(k: GeomKind): Option<string> {
    match k
    case PointGeom | MultiPointGeom => Some("Point")
    case LineStringGeom | MultiLineStringGeom => Some("LineString")
    case PolygonGeom | MultiPolygonGeom => Some("Polygon")
    case OtherGeom => None
  }

  /** The feature's properties after `Load` allocated a nil map and wrote `$type`. */
  function InjectType(f: Feature): Props {
    var props := f.props.GetOr(map[]);
    match TypeName(f.geom.kind)
    case None => props
    case Some(t) => props["$type" := Str(t)]
  }

  /** `$type` reflects the geometry kind; every other property is as decoded, a nil map reading as empty. */
  lemma TypeInjected(f: Feature)
    ensures f.geom.kind in {PointGeom, MultiPointGeom} ==> InjectType(f)["$type"] == Str("Point")
    ensures f.geom.kind in {LineStringGeom, MultiLineStringGeom} ==> InjectType(f)["$type"] == Str("LineString")
    ensures f.geom.kind in {PolygonGeom, MultiPolygonGeom} ==> InjectType(f)["$type"] == Str("Polygon")
    ensures forall key | key != "$type" || f.geom.kind == OtherGeom ::
      (key in InjectType(f) <==> f.props.Some? && key in f.props.value) &&
      (key in InjectType(f) ==> InjectType(f)[key] == f.props.value[key])
  {
  }

  /** The label: the `name` property when it is a string, otherwise empty. */
  function LabelOf(props: Props): string {
    if "name" in props && props["name"].Str? then props["name"].s else ""
  }

  /** A colour cache entry is always the translation of its key. */
  ghost predicate CacheSound(codes: map<string, string>) {
    forall c | c in codes :: codes[c] == Colors.HexToAnsi(c)
  }

  /** `after` keeps every entry of `before` as it was. */
  ghost predicate Extends(before: map<string, string>, after: map<string, string>) {
    forall c | c in before :: c in after && after[c] == before[c]
  }

  /** Look a colour up in the cache, translating and storing it on a miss. */
  function Memo(codes: map<string, string>, c: string): (r: (string, map<string, string>))
    ensures Extends(codes, r.1) && c in r.1 && r.1[c] == r.0
    ensures CacheSound(codes) ==> r.0 == Colors.HexToAnsi(c) && CacheSound(r.1)
  {
    if c in codes then (codes[c], codes) else (Colors.HexToAnsi(c), codes[c := Colors.HexToAnsi(c)])
  }

  /** One iteration of the feature loop: the entry it inserts (if any) and the cache after it. */
  function StyleStep(styler: Styler, name: string, f: Feature, codes: map<string, string>): (seq<Entry>, map<string, string>) {
    var props := InjectType(f);
    match StyleFor(styler, name, props)
    case None => ([], codes)
    case Some(style) =>
      var m := Memo(codes, ColorString(style));
      ([Entry(f.geom.bound, StyledFeature(f.geom, style, m.0, LabelOf(props)))], m.1)
  }

  function LoadFeatures(styler: Styler, name: string, fs: seq<Feature>, codes: map<string, string>): (r: (seq<Entry>, map<string, string>))
    ensures Extends(codes, r.1)
    decreases |fs|
  {
    if fs == [] then ([], codes)
    else
      var r := LoadFeatures(styler, name, fs[..|fs| - 1], codes);
      var s := StyleStep(styler, name, fs[|fs| - 1], r.1);
      (r.0 + s.0, s.1)
  }

  /** The entries inserted and the colour cache left by the loops of `Load`. The cache is only
      extended: an entry already in it is never overwritten. */
  function LoadLayers(styler: Styler, ls: seq<MvtLayer>, codes: map<string, string>): (r: (seq<Entry>, map<string, string>))
    ensures Extends(codes, r.1)
    decreases |ls|
  {
    if ls == [] then ([], codes)
    else
      var r := LoadLayers(styler, ls[..|ls| - 1], codes);
      var s := LoadFeatures(styler, ls[|ls| - 1].name, ls[|ls| - 1].features, r.1);
      (r.0 + s.0, s.1)
  }

  /** The entry a feature contributes with no cache at all: none when no style matches. */
  function Styled(styler: Styler, name: string, f: Feature): seq<Entry> {
    var props := InjectType(f);
    match StyleFor(styler, name, props)
    case None => []
    case Some(style) =>
      [Entry(f.geom.bound, StyledFeature(f.geom, style, Colors.HexToAnsi(ColorString(style)), LabelOf(props)))]
  }

  function StyledFeatures(styler: Styler, name: string, fs: seq<Feature>): seq<Entry> {
    if fs == [] then [] else StyledFeatures(styler, name, fs[..|fs| - 1]) + Styled(styler, name, fs[|fs| - 1])
  }

  /** Reference definition of the tile's contents: every styled feature once, in decoding order. */
  function StyledLayers(styler: Styler, ls: seq<MvtLayer>): seq<Entry> {
    if ls == [] then []
    else StyledLayers(styler, ls[..|ls| - 1]) + StyledFeatures(styler, ls[|ls| - 1].name, ls[|ls| - 1].features)
  }

  /** With a sound cache the memoised loop inserts exactly the reference entries, keeps the cache
      sound, and leaves every colour it used cached under its translation. */
  lemma {:induction false} MemoisationIsTransparent(styler: Styler, ls: seq<MvtLayer>, codes: map<string, string>)
    requires CacheSound(codes)
    ensures LoadLayers(styler, ls, codes).0 == StyledLayers(styler, ls)
    ensures CacheSound(LoadLayers(styler, ls, codes).1)
    ensures forall e | e in LoadLayers(styler, ls, codes).0 ::
      ColorString(e.item.style) in LoadLayers(styler, ls, codes).1 &&
      LoadLayers(styler, ls, codes).1[ColorString(e.item.style)] == e.item.color
  {
    if ls != [] {
      var r := LoadLayers(styler, ls[..|ls| - 1], codes);
      MemoisationIsTransparent(styler, ls[..|ls| - 1], codes);
      var last := ls[|ls| - 1];
      FeaturesTransparent(styler, last.name, last.features, r.1);
    }
  }

  lemma {:induction false} FeaturesTransparent(styler: Styler, name: string, fs: seq<Feature>, codes: map<string, string>)
    requires CacheSound(codes)
    ensures LoadFeatures(styler, name, fs, codes).0 == StyledFeatures(styler, name, fs)
    ensures CacheSound(LoadFeatures(styler, name, fs, codes).1)
    ensures forall e | e in LoadFeatures(styler, name, fs, codes).0 ::
      ColorString(e.item.style) in LoadFeatures(styler, name, fs, codes).1 &&
      LoadFeatures(styler, name, fs, codes).1[ColorString(e.item.style)] == e.item.color
  {
    if fs != [] {
      FeaturesTransparent(styler, name, fs[..|fs| - 1], codes);
      var r := LoadFeatures(styler, name, fs[..|fs| - 1], codes);
      StepTransparent(styler, name, fs[|fs| - 1], r.1);
    }
  }

  /** One feature: with a sound cache the memoised step inserts the reference entry, keeps the cache
      sound, keeps every cached entry, and leaves the entry's colour cached. */
  lemma StepTransparent(styler: Styler, name: string, f: Feature, codes: map<string, string>)
    requires CacheSound(codes)
    ensures var s := StyleStep(styler, name, f, codes);
      s.0 == Styled(styler, name, f) && CacheSound(s.1) && Extends(codes, s.1) &&
      forall e | e in s.0 :: ColorString(e.item.style) in s.1 && s.1[ColorString(e.item.style)] == e.item.color
  {
    var props := InjectType(f);
    match StyleFor(styler, name, props)
    case None =>
    case Some(style) =>
      var key := ColorString(style);
      var m := Memo(codes, key);
      assert m.0 == Colors.HexToAnsi(key) && m.1[key] == m.0;
      assert StyleStep(styler, name, f, codes).0 ==
        [Entry(f.geom.bound, StyledFeature(f.geom, style, m.0, LabelOf(props)))];
  }

  /** Only features some style accepts are inserted, each under its own bounding box. */
  lemma {:induction false} OnlyStyledInserted(styler: Styler, ls: seq<MvtLayer>)
    ensures forall e | e in StyledLayers(styler, ls) :: exists i, j |
      0 <= i < |ls| && 0 <= j < |ls[i].features| ::
        var f := ls[i].features[j];
        e.box == f.geom.bound && e.item.geom == f.geom &&
        StyleFor(styler, ls[i].name, InjectType(f)) == Some(e.item.style) &&
        e.item.labelText == LabelOf(InjectType(f))
  {
    if ls != [] {
      var init := ls[..|ls| - 1];
      OnlyStyledInserted(styler, init);
      var n := |ls| - 1;
      OnlyStyledFeatures(styler, ls[n].name, ls[n].features);
      forall e | e in StyledLayers(styler, ls)
        ensures exists i, j | 0 <= i < |ls| && 0 <= j < |ls[i].features| ::
          var f := ls[i].features[j];
          e.box == f.geom.bound && e.item.geom == f.geom &&
          StyleFor(styler, ls[i].name, InjectType(f)) == Some(e.item.style) &&
          e.item.labelText == LabelOf(InjectType(f))
      {
        if e in StyledLayers(styler, init) {
          var i, j :| 0 <= i < |init| && 0 <= j < |init[i].features| &&
            var f := init[i].features[j];
            e.box == f.geom.bound && e.item.geom == f.geom &&
            StyleFor(styler, init[i].name, InjectType(f)) == Some(e.item.style) &&
            e.item.labelText == LabelOf(InjectType(f));
          assert init[i] == ls[i];
        } else {
          var j :| 0 <= j < |ls[n].features| &&
            var f := ls[n].features[j];
            e.box == f.geom.bound && e.item.geom == f.geom &&
            StyleFor(styler, ls[n].name, InjectType(f)) == Some(e.item.style) &&
            e.item.labelText == LabelOf(InjectType(f));
        }
      }
    }
  }

  lemma {:induction false} OnlyStyledFeatures(styler: Styler, name: string, fs: seq<Feature>)
    ensures forall e | e in StyledFeatures(styler, name, fs) :: exists j | 0 <= j < |fs| ::
      e.box == fs[j].geom.bound && e.item.geom == fs[j].geom &&
      StyleFor(styler, name, InjectType(fs[j])) == Some(e.item.style) &&
      e.item.labelText == LabelOf(InjectType(fs[j]))
  {
    if fs != [] {
      var init := fs[..|fs| - 1];
      OnlyStyledFeatures(styler, name, init);
      forall e | e in StyledFeatures(styler, name, fs)
        ensures exists j | 0 <= j < |fs| ::
          e.box == fs[j].geom.bound && e.item.geom == fs[j].geom &&
          StyleFor(styler, name, InjectType(fs[j])) == Some(e.item.style) &&
          e.item.labelText == LabelOf(InjectType(fs[j]))
      {
        if e in StyledFeatures(styler, name, init) {
          var j :| 0 <= j < |init| &&
            e.box == init[j].geom.bound && e.item.geom == init[j].geom &&
            StyleFor(styler, name, InjectType(init[j])) == Some(e.item.style) &&
            e.item.labelText == LabelOf(InjectType(init[j]));
          assert init[j] == fs[j];
        }
      }
    }
  }

  /** A feature no style accepts contributes nothing; a styled one contributes exactly one entry. */
  lemma StyledCount(styler: Styler, name: string, f: Feature)
    ensures |Styled(styler, name, f)| == if StyleFor(styler, name, InjectType(f)).Some? then 1 else 0
  {
  }

  lemma FeaturesSnoc(styler: Styler, name: string, fs: seq<Feature>, i: nat, codes: map<string, string>)
    requires i < |fs|
    ensures var r := LoadFeatures(styler, name, fs[..i], codes);
      var s := StyleStep(styler, name, fs[i], r.1);
      LoadFeatures(styler, name, fs[..i + 1], codes) == (r.0 + s.0, s.1)
  {
    assert fs[..i + 1][..i] == fs[..i];
  }

  lemma LayersSnoc(styler: Styler, ls: seq<MvtLayer>, i: nat, codes: map<string, string>)
    requires i < |ls|
    ensures var r := LoadLayers(styler, ls[..i], codes);
      var s := LoadFeatures(styler, ls[i].name, ls[i].features, r.1);
      LoadLayers(styler, ls[..i + 1], codes) == (r.0 + s.0, s.1)
  {
    assert ls[..i + 1][..i] == ls[..i];
  }

  /** The first decoded layer as the tile keeps it: its features carry the injected properties. */
  function KeptLayer(l: MvtLayer): MvtLayer {
    l.(features := seq(|l.features|, i requires 0 <= i < |l.features| =>
      l.features[i].(props := Some(InjectType(l.features[i])))))
  }

  /** `TileSource.colorCache`, shared by every tile the source loads. */
  class ColorCache {
    var codes: map<string, string>

    constructor()
      ensures codes == map[]
    {
      codes := map[];
    }
  }

  /** The body of the feature loop: inject `$type`, find the style, memoise the colour, build the entry. */
  method StyleFeature(feature: Feature, name: string, styler: Styler, cache: ColorCache) returns (added: seq<Entry>)
    modifies cache
    ensures (added, cache.codes) == StyleStep(styler, name, feature, old(cache.codes))
  {
    var props := InjectType(feature);
    var style := GetStyleFor(styler, name, props);
    if style.None? {
      return [];
    }
    var colorStr := ColorString(style.value);
    var colorCode: string;
    if colorStr in cache.codes {
      colorCode := cache.codes[colorStr];
    } else {
      colorCode := Colors.HexToAnsi(colorStr);
      cache.codes := cache.codes[colorStr := colorCode];
    }
    var labelText := LabelOf(props);
    return [Entry(feature.geom.bound, StyledFeature(feature.geom, style.value, colorCode, labelText))];
  }

  class Tile {
    /** The embedded `mvt.Layer`. */
    var layer: MvtLayer
    /** The R-tree's items, in insertion order. */
    var entries: seq<Entry>

    constructor()
      ensures layer == EmptyLayer && entries == []
    {
      layer := EmptyLayer;
      entries := [];
    }

    /** The feature loop over one decoded layer. */
    method LoadLayer(l: MvtLayer, styler: Styler, cache: ColorCache)
      modifies this, cache
      ensures var r := LoadFeatures(styler, l.name, l.features, old(cache.codes));
        entries == old(entries) + r.0 && cache.codes == r.1 && layer == old(layer)
    {
      ghost var start, codes0 := entries, cache.codes;
      var fi := 0;
      while fi < |l.features|
        invariant 0 <= fi <= |l.features|
        invariant layer == old(layer)
        invariant var r := LoadFeatures(styler, l.name, l.features[..fi], codes0);
          entries == start + r.0 && cache.codes == r.1
      {
        LoadNext(l, styler, cache, fi, start, codes0);
        fi := fi + 1;
      }
      assert l.features[..|l.features|] == l.features;
    }

    /** One pass of the feature loop: feature `fi` styled and its entry appended. */
    method LoadNext(l: MvtLayer, styler: Styler, cache: ColorCache, fi: nat, ghost start: seq<Entry>, ghost codes0: map<string, string>)
      requires fi < |l.features|
      requires var r := LoadFeatures(styler, l.name, l.features[..fi], codes0);
        entries == start + r.0 && cache.codes == r.1
      modifies this, cache
      ensures layer == old(layer)
      ensures var r := LoadFeatures(styler, l.name, l.features[..fi + 1], codes0);
        entries == start + r.0 && cache.codes == r.1
    {
      ghost var r := LoadFeatures(styler, l.name, l.features[..fi], codes0);
      FeaturesSnoc(styler, l.name, l.features, fi, codes0);
      var added := StyleFeature(l.features[fi], l.name, styler, cache);
      Assoc(start, r.0, added);
      entries := entries + added;
    }

    /** `Load` after decoding: style every feature, memoise its colour, insert it under its bounds. */
    method Load(decoded: Option<seq<MvtLayer>>, styler: Styler, cache: ColorCache) returns (ok: bool)
      modifies this, cache
      ensures ok <==> decoded.Some?
      ensures !ok ==> entries == old(entries) && layer == old(layer) && cache.codes == old(cache.codes)
      ensures ok ==>
        var r := LoadLayers(styler, decoded.value, old(cache.codes));
        entries == old(entries) + r.0 && cache.codes == r.1 &&
        layer == (if |decoded.value| > 0 then KeptLayer(decoded.value[0]) else old(layer))
    {
      if decoded.None? {
        return false;
      }
      var layers := decoded.value;
      ghost var start := entries;
      ghost var codes0 := cache.codes;
      var li := 0;
      while li < |layers|
        invariant 0 <= li <= |layers|
        invariant layer == old(layer)
        invariant var r := LoadLayers(styler, layers[..li], codes0); entries == start + r.0 && cache.codes == r.1
      {
        ghost var r := LoadLayers(styler, layers[..li], codes0);
        LayersSnoc(styler, layers, li, codes0);
        LoadLayer(layers[li], styler, cache);
        Assoc(start, r.0, LoadFeatures(styler, layers[li].name, layers[li].features, r.1).0);
        li := li + 1;
      }
      assert layers[..|layers|] == layers;
      if |layers| > 0 {
        layer := KeptLayer(layers[0]);
      }
      return true;
    }
  }

  /** What the HTTP or disk fetch of a missing tile produced. */
  datatype Fetch =
    | FetchFailed
    | Fetched(decoded: Option<seq<MvtLayer>>)

  /** The cache key `"z-x-y"`. */
  function Key(z: int, x: int, y: int): string {
    IntStr(z) + "-" + IntStr(x) + "-" + IntStr(y)
  }

  /** An integer followed by the separator `-`, and what follows the separator. */
  function ParseIntDash(s: string): Option<(int, string)> {
    match ParseInt(s)
    case None => None
    case Some(p) => if p.1 != [] && p.1[0] == '-' then Some((p.0, p.1[1..])) else None
  }

  /** The `x-y` part of a key. */
  function ParseTail(s: string): Option<(int, int)> {
    match ParseIntDash(s)
    case None => None
    case Some(px) =>
      match ParseInt(px.1)
      case None => None
      case Some(py) => if py.1 == [] then Some((px.0, py.0)) else None
  }

  function ParseKey(s: string): Option<(int, int, int)> {
    match ParseIntDash(s)
    case None => None
    case Some(pz) =>
      match ParseTail(pz.1)
      case None => None
      case Some(xy) => Some((pz.0, xy.0, xy.1))
  }

  lemma ParseIntDashRoundTrip(i: int, rest: string)
    ensures ParseIntDash(IntStr(i) + "-" + rest) == Some((i, rest))
  {
    assert IntStr(i) + "-" + rest == IntStr(i) + ("-" + rest);
    IntStrRoundTrip(i, "-" + rest);
    assert ("-" + rest)[1..] == rest;
  }

  lemma ParseTailRoundTrip(x: int, y: int)
    ensures ParseTail(IntStr(x) + "-" + IntStr(y)) == Some((x, y))
  {
    ParseIntDashRoundTrip(x, IntStr(y));
    IntStrRoundTrip(y, []);
    assert IntStr(y) + [] == IntStr(y);
  }

  lemma KeyRoundTrip(z: int, x: int, y: int)
    ensures ParseKey(Key(z, x, y)) == Some((z, x, y))
  {
    var restX := IntStr(x) + "-" + IntStr(y);
    assert Key(z, x, y) == IntStr(z) + "-" + restX;
    ParseIntDashRoundTrip(z, restX);
    ParseTailRoundTrip(x, y);
  }

  /** Distinct tile coordinates never share a cache slot, negative ones included. */
  lemma KeyInjective(z: int, x: int, y: int, z': int, x': int, y': int)
    requires Key(z, x, y) == Key(z', x', y')
    ensures z == z' && x == x' && y == y'
  {
    KeyRoundTrip(z, x, y);
    KeyRoundTrip(z', x', y');
  }

  class TileSource {
    var cache: map<string, Tile>
    const colors: ColorCache
    const styler: Styler
    /** How many times the fetch oracle has been consulted. */
    ghost var fetches: nat

    ghost predicate Valid()
      reads this, colors
    {
      CacheSound(colors.codes)
    }

    constructor(styler: Styler)
      ensures Valid() && cache == map[] && this.styler == styler && colors.codes == map[] && fetches == 0
      ensures fresh(colors)
    {
      cache := map[];
      this.styler := styler;
      colors := new ColorCache();
      fetches := 0;
    }

    /** `GetTile`: a cached tile is returned as is; otherwise the fetched tile is loaded and cached,
        a failed fetch is an error, and a tile that fails to load is replaced by a fresh empty one
        that is not cached. */
    method GetTile(z: int, x: int, y: int, fetch: Fetch) returns (tile: Tile?, failed: bool)
      requires Valid()
      modifies this, colors
      ensures Valid()
      ensures Extends(old(colors.codes), colors.codes)
      ensures Key(z, x, y) in old(cache) ==>
        tile == old(cache)[Key(z, x, y)] && !failed && cache == old(cache) &&
        fetches == old(fetches) && colors.codes == old(colors.codes)
      ensures Key(z, x, y) !in old(cache) ==> fetches == old(fetches) + 1
      ensures Key(z, x, y) !in old(cache) && fetch.FetchFailed? ==>
        tile == null && failed && cache == old(cache) && colors.codes == old(colors.codes)
      ensures Key(z, x, y) !in old(cache) && fetch.Fetched? && fetch.decoded.None? ==>
        tile != null && fresh(tile) && !failed && tile.entries == [] && tile.layer == EmptyLayer &&
        cache == old(cache) && colors.codes == old(colors.codes)
      ensures Key(z, x, y) !in old(cache) && fetch.Fetched? && fetch.decoded.Some? ==>
        tile != null && fresh(tile) && !failed && cache == old(cache)[Key(z, x, y) := tile] &&
        tile.entries == StyledLayers(styler, fetch.decoded.value) &&
        tile.entries == LoadLayers(styler, fetch.decoded.value, old(colors.codes)).0 &&
        colors.codes == LoadLayers(styler, fetch.decoded.value, old(colors.codes)).1
    {
      var key := Key(z, x, y);
      if key in cache {
        return cache[key], false;
      }
      fetches := fetches + 1;
      if fetch.FetchFailed? {
        return null, true;
      }
      tile := new Tile();
      ghost var codes0 := colors.codes;
      var ok := tile.Load(fetch.decoded, styler, colors);
      if !ok {
        tile := new Tile();
        return tile, false;
      }
      MemoisationIsTransparent(styler, fetch.decoded.value, codes0);
      assert Extends(codes0, colors.codes);
      cache := cache[key := tile];
      return tile, false;
    }
  }

  /** The same tile asked for twice: once a load has succeeded the second call is a memory hit,
      so the fetch runs at most once and both calls return the same tile. A failed fetch caches
      nothing, so the second call fetches again. The model's calls are sequential and take no
      lock; for a failed load it gives the same answer, but there the Go code returns from
      `GetTile` with the mutex still held (rendermaps/tile.go:105-108), so its second call
      blocks forever instead. */
  method GetTileTwice(ts: TileSource, z: int, x: int, y: int, fetch: Fetch) returns (first: Tile?, second: Tile?)
    requires ts.Valid()
    modifies ts, ts.colors
    ensures ts.Valid()
    ensures Key(z, x, y) in old(ts.cache) || (fetch.Fetched? && fetch.decoded.Some?) ==>
      first == second && first != null &&
      ts.fetches == old(ts.fetches) + (if Key(z, x, y) in old(ts.cache) then 0 else 1)
    ensures Key(z, x, y) !in old(ts.cache) && !(fetch.Fetched? && fetch.decoded.Some?) ==>
      ts.fetches == old(ts.fetches) + 2 && ts.cache == old(ts.cache)
  {
    var failed;
    first, failed := ts.GetTile(z, x, y, fetch);
    second, failed := ts.GetTile(z, x, y, fetch);
  }

  /** `baseZoom`: the integer zoom whose tiles are drawn, clamped to the tile range. */
  function BaseZoom(zoom: real, tileRange: int): (z: int)
    ensures z <= tileRange && z <= zoom.Floor
    ensures z == tileRange || z == zoom.Floor
  {
    if tileRange <= zoom.Floor then tileRange else zoom.Floor
  }

  lemma BaseZoomMonotone(a: real, b: real, tileRange: int)
    requires a <= b
    ensures BaseZoom(a, tileRange) <= BaseZoom(b, tileRange)
  {
  }
}
