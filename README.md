# Terminal map renderer core, modelled in Dafny

This project models the integer and symbolic core of a terminal vector-map
renderer written in Go, and proves properties of that model. The renderer draws
Mapbox vector tiles as braille characters with ANSI truecolour. The model covers:

- **Style filters and layer resolution** (`rendermaps/style.go`):
  - the Mapbox-GL-style filter language `compileFilter`, as a `Filter` datatype and an `Eval` predicate over a property map;
  - the `ref` inheritance and registration loop of `newStyler`;
  - first-match lookup `GetStyleFor`;
  - `GetPaintProperty`;
  - `hexToANSI`.
- **Tile styling and memoisation** (`rendermaps/tile.go`):
  - the per-feature loop of `Tile.Load`, which injects `$type`, drops unstyled features, memoises colours and inserts each feature under its bounding box;
  - the in-memory cache of `TileSource.GetTile`;
  - `baseZoom`;
  - label collision avoidance (`LabelBuffer.WriteIfPossible`).
- **The braille canvas** (`rendermaps/canvas.go`):
  - `NewCanvas`, `project`, `SetPixel`, `setPixelSplat`, `Text`, `Polyline`, `line`, `bresenham`, `filledTriangle`, `Polygon` and `Frame`;
  - the zoom and source-layer gates of `drawFeature` and `renderTileLayer`.
- **The search sanitiser** `SanitiseSeach` (`api/search.go`).
- **The UI state stack** (`ui/state.go`).

Modules, leaf first:

- `Wrappers`: `Option`, the model of Go's nil.
- `Geometry`: boxes, pixels and Go's truncating `int(float)`.
- `Decimal`: Go's `%d` and its parser.
- `Filters`: the filter language.
- `Styling`: layer resolution and lookup.
- `Colors`: `hexToANSI`.
- `Tiles`: `Load`, `GetTile` and `baseZoom`.
- `Labels`: the label buffer.
- `Lines`: the Bresenham tracer.
- `Cells`: the canvas as a value.
- `Scanlines`: the triangle fill.
- `Frames`: `Frame` as tokens.
- `Raster`: the `Canvas` class.
- `Render`: `drawFeature` and `renderTileLayer`.
- `Search`: the sanitiser.
- `AppStates`: the state stack.

State that the Go code updates in place is modelled as classes:

- `Canvas` keeps its byte buffer as an `array<bv8>` and its character and colour buffers as maps.
- `Tile`, `TileSource`, `LabelBuffer` and `StateStack` hold `seq`/`map` fields that their methods reassign.

Each method is proved equal to a value-level function (`Plot`, `PaintAll`, `Segment`, `TrianglePixels`, `FrameOf`, `LoadLayers`, `Offer`, …). The lemmas state the properties of those functions.

The code departs from the usual Mapbox GL style rules in these ways, and the model follows the code:

- An unknown filter operator, a non-string operator and an empty filter all match every feature; there is no compile error.
- There is no `@`-constant substitution.
- `ref` inheritance copies `type`, `source-layer`, `filter` and `paint`, each only when it is unset. Minimum and maximum zoom are not inherited.
- `>`, `>=`, `<` and `<=` are not operators. Like any unknown operator, they match everything.
- `["!in", key, [a, b]]` with a nested value list makes Go panic (an array is not a valid map key). `Compile` returns `None` for it.

`rendermaps/style.go` and `rendermaps/tile.go` are two revisions of one package. The model takes `compileFilter` and the `Styler` from `style.go`. It takes `Load`, `GetTile`, `LabelBuffer`, `baseZoom` (with its `TileRange` clamp) and `hexToANSI` from `tile.go`.

## Model

| member | source | states |
|---|---|---|
| `Geometry.Trunc` | rendermaps/canvas.go:206 | Go's `int(f)` rounds toward zero: for non-negative reals the result is the floor, for negative ones the ceiling |
| `Filters.Compile` | rendermaps/style.go:240-375 | `compileFilter` as a `Filter` value; it fails (`None`) only where Go panics: in a combinator through a sub-filter, or in an `in`/`!in` list holding an array or object literal |
| `Filters.Eval` | rendermaps/style.go:262-369 | the returned closure applied to a property map; a feature without the tested key never passes `==`, `in` or `has` and always passes `!in` and `!has` |
| `Filters.FailOpen` | rendermaps/style.go:242-251 | an empty filter, a first element that is not a string, and any operator outside the nine known ones (the `default` branch) compile and accept every property map |
| `Filters.CompileSubsSucceeds` | rendermaps/style.go:256-261 | the argument list of `all`/`any`/`none` compiles iff every array-valued argument compiles; other arguments are skipped |
| `Filters.EvalAllSubs` | rendermaps/style.go:262-268 | the compiled sub-filters all accept iff every array-valued argument accepts |
| `Filters.EvalAnySubs` | rendermaps/style.go:277-283 | the compiled sub-filters have an accepting member iff some array-valued argument accepts |
| `Filters.AllSemantics` | rendermaps/style.go:255-269 | `all` accepts iff every array-valued sub-filter accepts (vacuously true with none); non-array arguments are ignored |
| `Filters.AnySemantics` | rendermaps/style.go:270-284 | `any` accepts iff at least one array-valued sub-filter accepts |
| `Filters.NoneSemantics` | rendermaps/style.go:285-299 | `none` accepts iff no array-valued sub-filter accepts |
| `Filters.CombinatorCompiles` | rendermaps/style.go:255-299 | a combinator compiles iff all its array-valued arguments compile |
| `Filters.EqSemantics` | rendermaps/style.go:302-321 | `==` never matches with fewer than 3 elements or an absent key; otherwise it is equality of the property with the literal (numbers numerically) |
| `Filters.NeqSemantics` | rendermaps/style.go:322-333 | `!=` never matches with fewer than 3 elements; an absent key reads as nil, so it matches every literal except null; a present key matches iff unequal |
| `Filters.InCompiles` | rendermaps/style.go:334-340 | `in`/`!in` compile iff the filter is too short or no value-list literal is an array or object (those make the Go map insertion panic) |
| `Filters.InSemantics` | rendermaps/style.go:334-344 | `in` accepts iff the filter has at least 3 elements, the key is present and its value equals one of `filter[2:]` |
| `Filters.NotInNegatesIn` | rendermaps/style.go:345-355 | with a non-empty value list `!in` is exactly the negation of `in` (a missing key gives true); a too-short filter makes both false |
| `Filters.HasComplement` | rendermaps/style.go:356-369 | `has` tests key presence and `!has` is its complement; both are false without a key element |
| `Filters.TypeFilterExample` | rendermaps/style.go:302-321 | `["==","$type","Point"]` accepts exactly the maps whose `$type` is the string "Point" |
| `Filters.ComparisonIsIgnored` | rendermaps/style.go:371-373 | `[">","rank",2]` is an unknown operator, so `["all",["has","name"],[">","rank",2]]` accepts iff `name` is present |
| `Filters.NestedValueListPanics` | rendermaps/style.go:345-351 | `["!in","class",["a","b"]]` does not compile: the nested array cannot be a map key |
| `Styling.IdIndex` | rendermaps/style.go:185-188 | every id in the index points at a layer with that id, and every layer's id is indexed at or after its own position (the last layer with an id wins) |
| `Styling.IndexById` | rendermaps/style.go:185-188 | the first loop of `newStyler` builds exactly `IdIndex` |
| `Styling.ResolveStep` | rendermaps/style.go:192-210 | one iteration patches only layer `i` in place, reading its reference's current value; every other layer is unchanged, and layer `i` keeps its id, ref and zoom range |
| `Styling.RefIsLastWithId` | rendermaps/style.go:186-188 | a `ref` resolves to the last layer carrying that id; no later layer has it |
| `Styling.ResolveLayer` | rendermaps/style.go:194-210 | one resolution step: the layer takes `type`, `source-layer`, `filter` and `paint` from its referenced layer for the fields it left empty or nil; id, ref and zoom range are kept |
| `Styling.ResolvedPrefixStable` | rendermaps/style.go:191-213 | after `n` iterations the first `n` layers are final and the rest are still as decoded |
| `Styling.ResolvedPointwise` | rendermaps/style.go:191-210 | resolved layer `i` inherits from its referenced layer, seen resolved when it lies earlier and as decoded when it lies later (or is itself); an unknown or empty ref leaves it as decoded |
| `Styling.ResolvedKeeps` | rendermaps/style.go:194-210 | resolution never changes a layer's id, ref, minzoom or maxzoom |
| `Styling.ResolvedUnchanged` | rendermaps/style.go:194-210 | a layer with no ref, an unknown ref, or all four inheritable fields set stays exactly as decoded |
| `Styling.NewStyler` | rendermaps/style.go:184-214 | succeeds iff every resolved filter compiles, and then registers every resolved, compiled layer under its source layer in document order |
| `Styling.StyleNext` | rendermaps/style.go:191-212 | one pass resolves layer `i` from its reference, fails only when that resolved filter does not compile (so the document does not compile), and otherwise extends the compiled layers registered by source layer with it |
| `Styling.GroupIsUnder` | rendermaps/style.go:212 | a source-layer name is registered iff some layer has it, and its list is exactly those layers in document order |
| `Styling.FirstMatch` | rendermaps/style.go:226-236 | None iff no layer of the list accepts; otherwise a layer that accepts and is preceded only by layers that do not |
| `Styling.GetStyleFor` | rendermaps/style.go:217-237 | an unregistered name gives nil; otherwise the result is the first registered layer whose filter accepts the feature |
| `Styling.StyleForDocument` | rendermaps/style.go:191-237 | for a styler built from a document, the style of a feature is the first resolved layer in document order with that source layer whose filter accepts it, and nil iff there is none |
| `Styling.ColorPrecedence` | rendermaps/style.go:158-166 | the drawing colour is `paint["line-color"]` if it is a string, else `paint["fill-color"]` if it is a string, else "#ffffff" |
| `Styling.GetPaintProperty` | rendermaps/style.go:158-166 | the paint entry under the key when it is a string; otherwise, and always with no paint map, the fallback |
| `Decimal.NatStrRoundTrip` | rendermaps/style.go:421 | the decimal text `%d` writes for a natural number parses back to that number |
| `Decimal.IntStrRoundTrip` | rendermaps/tile.go:76 | the same for signed integers, including negative ones |
| `Colors.ScanField` | rendermaps/tile.go:219 | one `%02x` field reads one or two hex digits and yields a value below 256 |
| `Colors.HexToAnsi` | rendermaps/tile.go:213-221 | for every string the result is the escape `ESC[38;2;R;G;Bm` of three bytes, which `AnsiRoundTrip` reads back |
| `Colors.ComponentsAreBytes` | rendermaps/tile.go:218-219 | every component `hexToANSI` emits is in 0..255 |
| `Colors.AnsiRoundTrip` | rendermaps/tile.go:220 | the escape `ESC[38;2;R;G;Bm` reads back as (R, G, B) |
| `Colors.SixDigits` | rendermaps/tile.go:213-221 | with `#` stripped, six leading hex digits (not the 3-digit form) give the escape whose components are the three hex bytes |
| `Colors.ThreeDigits` | rendermaps/tile.go:214-217 | a 3-digit code has each digit doubled: components are 17 times each digit |
| `Colors.HexRoundTrip` | rendermaps/tile.go:213-221 | for every byte triple, `"#RRGGBB"` yields an escape that reads back as exactly those bytes |
| `Colors.ShortHexRoundTrip` | rendermaps/tile.go:213-221 | `"#RGB"` yields an escape that reads back as (17R, 17G, 17B) |
| `Colors.InvalidIsBlack` | rendermaps/tile.go:218-220 | a string that (after the `#`) does not start with a hex digit and is not 3 long gives black, since `Sscanf` reads nothing; Go agrees when the string does not start with a space either |
| `Tiles.TypeInjected` | rendermaps/tile.go:136-147 | `$type` is "Point", "LineString" or "Polygon" according to the geometry kind (multi-kinds included); all other properties are as decoded, a nil map reading as empty |
| `Tiles.StyleFeature` | rendermaps/tile.go:136-165 | one iteration of the feature loop: the entry added (none when no style matches) and the colour cache after it |
| `Tiles.Memo` | rendermaps/tile.go:155-159 | the cache lookup with store on a miss: the colour is then cached under its string, no existing entry changes, and with a sound cache it is `hexToANSI` of the string and the cache stays sound |
| `Tiles.LoadLayers` | rendermaps/tile.go:134-166 | the entries inserted and the colour cache left by the two loops of `Load`; the cache is only extended, an entry already present is never overwritten |
| `Tiles.MemoisationIsTransparent` | rendermaps/tile.go:149-165 | with a sound cache, the memoised loop inserts exactly the entries computed without a cache, keeps `colorCache[c] == hexToANSI(c)` for every key, and caches the colour of every inserted feature |
| `Tiles.OnlyStyledInserted` | rendermaps/tile.go:149-165 | every inserted entry comes from a decoded feature that some style accepts, keyed by that feature's bounding box, with label the `name` string property or "" |
| `Tiles.StyledCount` | rendermaps/tile.go:149-152 | a feature contributes no entry when no style matches and exactly one otherwise |
| `Tiles.Tile.constructor` | rendermaps/tile.go:106 | a fresh tile has an empty layer and an empty R-tree |
| `Tiles.Tile.LoadLayer` | rendermaps/tile.go:135-166 | the feature loop over one layer appends `LoadFeatures` and leaves the cache it computes |
| `Tiles.Tile.LoadNext` | rendermaps/tile.go:136-165 | one pass of the feature loop appends what `StyleStep` gives for that feature and leaves its cache |
| `Tiles.Tile.Load` | rendermaps/tile.go:118-172 | a decode failure changes nothing and reports failure; otherwise every styled feature of every layer is inserted in order, the cache is updated, and the tile keeps the first layer with its injected properties |
| `Tiles.KeyRoundTrip` | rendermaps/tile.go:76 | the cache key `"z-x-y"` parses back to (z, x, y) |
| `Tiles.KeyInjective` | rendermaps/tile.go:76 | distinct tile coordinates have distinct cache keys |
| `Tiles.TileSource.constructor` | rendermaps/tile.go:64-69 | a new tile source has empty tile and colour caches |
| `Tiles.TileSource.GetTile` | rendermaps/tile.go:71-116 | a memory hit returns the stored tile and does not fetch; a failed fetch is an error; a failed load returns a fresh empty tile, no error, and stores nothing; a successful load stores the tile under its key, with exactly the styled features |
| `Tiles.GetTileTwice` | rendermaps/tile.go:76-112 | two calls for the same key after a successful load return the same tile and fetch at most once; after a failed fetch the second call fetches again; a failed load is answered as in sequential, lock-free calls (see "Left out") |
| `Tiles.BaseZoom` | rendermaps/tile.go:197-199 | the result is `min(TileRange, floor(z))`, so it never exceeds `TileRange` |
| `Tiles.BaseZoomMonotone` | rendermaps/tile.go:197-199 | `baseZoom` is monotone in the zoom |
| `Labels.LabelBox` | rendermaps/tile.go:183-184 | the padded box spans `width + 2` columns and 2 rows around the label's cell |
| `Labels.Offer` | rendermaps/tile.go:182-195 | a label is accepted iff its box overlaps no placed box; placed labels are never removed, and an accepted one is appended |
| `Labels.OfferKeepsDisjoint` | rendermaps/tile.go:182-195 | offering a label keeps the accepted boxes pairwise non-overlapping |
| `Labels.OfferAllKeepsDisjoint` | rendermaps/tile.go:182-195 | any sequence of offers keeps the accepted boxes pairwise non-overlapping |
| `Labels.OutcomeDependsOnOrder` | rendermaps/tile.go:182-195 | for two overlapping labels, whichever is offered first is the one kept |
| `Labels.LabelBuffer.constructor` | rendermaps/tile.go:178-180 | a new buffer holds no boxes |
| `Labels.LabelBuffer.WriteIfPossible` | rendermaps/tile.go:182-195 | accepts iff the padded box overlaps no stored box; on acceptance it adds that box; a rejected call leaves the buffer unchanged |
| `Lines.StepKeeps` | rendermaps/canvas.go:307-315 | one loop iteration keeps the error-term invariant, strictly shortens the distance to the end point, and moves each axis by at most one toward it |
| `Lines.WalkShape` | rendermaps/canvas.go:302-316 | the loop ends on the target, every step advances toward it, and it visits between max(|dx|,|dy|)+1 and |dx|+|dy|+1 points |
| `Lines.SetupValid` | rendermaps/canvas.go:280-301 | the initial distances, directions and `err = dx + dy` satisfy the loop invariant |
| `Lines.SegmentShape` | rendermaps/canvas.go:278-317 | the segment starts at truncated p1, ends at truncated p2, each step changes x and y by at most 1, and the loop terminates |
| `Lines.Segment` | rendermaps/canvas.go:278-317 | the points `bresenham` returns for two pixels: never empty, starting at the first pixel |
| `Lines.HorizontalSegment` | rendermaps/canvas.go:278-317 | a horizontal segment visits every column from left to right once |
| `Lines.Prepare` | rendermaps/canvas.go:280-301 | the set-up computes the Bresenham configuration and initial state |
| `Lines.Advance` | rendermaps/canvas.go:310-317 | one pass after the end test: the two independent error tests step x and y exactly as `Next` says |
| `Lines.Bresenham` | rendermaps/canvas.go:278-318 | `bresenham` returns exactly `Segment` of the truncated end points |
| `Cells.BrailleBitsDistinct` | rendermaps/canvas.go:96 | the 8 braille-table entries are single bits, pairwise distinct, and together fill the byte |
| `Cells.DotsOfCell` | rendermaps/canvas.go:109 | a pixel's dot is a single bit, shared with another pixel iff both have the same `x%2` and `y%4` |
| `Cells.Project` | rendermaps/canvas.go:100-105 | every projected index lies inside the `(width/2)*(height/4)` buffer |
| `Cells.ProjectAsWrittenOverruns` | rendermaps/canvas.go:100-105 | with width 3, `project` as written maps pixel (2, 0) to index 1 of a 1-cell buffer |
| `Cells.ProjectAsWritten` | rendermaps/canvas.go:100-105 | `project` as written accepts every pixel of the `width` by `height` rectangle, whole cells or not |
| `Cells.ProjectAsWrittenWraps` | rendermaps/canvas.go:100-105 | with width 3 and height 8, `project` as written maps (2, 0) to index 1, the cell of (0, 4) in the next row; `Project` drops (2, 0) |
| `Cells.ProjectAgrees` | rendermaps/canvas.go:100-105 | for even width and height a multiple of 4, the bounded projection equals `project` as written |
| `Cells.ProjectCells` | rendermaps/canvas.go:100-105 | a pixel projects iff it is on the canvas; two pixels share a cell iff they agree on `x/2` and `y/4` |
| `Cells.Plot` | rendermaps/canvas.go:107-114 | `SetPixel` on the cell buffers: the byte buffer keeps its size, characters are untouched, and a cell's colour once set is kept |
| `Cells.PlotEffect` | rendermaps/canvas.go:107-114 | `SetPixel` ORs exactly the pixel's dot into its one cell, never clears a bit, touches no other cell, keeps an existing colour, and does nothing off-canvas |
| `Cells.PlotBitsCommute` | rendermaps/canvas.go:107-114 | the bits set by two `SetPixel` calls do not depend on their order |
| `Cells.FirstColourWins` | rendermaps/canvas.go:110-112 | a blank cell keeps the colour of the first pixel plotted into it |
| `Cells.Put` | rendermaps/canvas.go:116-124 | one `setPixelSplat` or `Text` step: dot bits are untouched, and an off-canvas pixel changes nothing |
| `Cells.SplatOverwrites` | rendermaps/canvas.go:116-124 | `setPixelSplat` overwrites the cell's character and colour and leaves the dot bits and other characters unchanged |
| `Cells.PlotsOnlyAdd` | rendermaps/canvas.go:109 | any sequence of `SetPixel` calls keeps every bit already set |
| `Cells.PaintAll` | rendermaps/canvas.go:230-247 | the pixels of a sequence painted one after the other; the byte buffer keeps its size |
| `Cells.PlottedDotsAreSet` | rendermaps/canvas.go:107-114 | after plotting a sequence, every on-canvas pixel of it has its dot set |
| `Cells.Segments` | rendermaps/canvas.go:169-173 | a polyline has exactly `len(points)-1` segments, none with fewer than 2 points |
| `Cells.PolylineIsSegments` | rendermaps/canvas.go:169-173 | `Polyline` paints the segments between consecutive points, in order |
| `Cells.TextKeepsPixels` | rendermaps/canvas.go:126-135 | `Text` never changes dot bits |
| `Cells.TextAt` | rendermaps/canvas.go:126-135 | the whole of `Text`; it never changes dot bits |
| `Cells.TextPlacement` | rendermaps/canvas.go:126-135 | ASCII text on the canvas puts character k into the cell at column `x - (w/2)*2 + 2k`, in the given colour |
| `Raster.Canvas.constructor` | rendermaps/canvas.go:91-98 | `NewCanvas` allocates `(width/2)*(height/4)` zero cells and empty character and colour maps |
| `Raster.Canvas.SetPixel` | rendermaps/canvas.go:107-114 | the canvas becomes `Plot` of its old value |
| `Raster.Canvas.SetPixelSplat` | rendermaps/canvas.go:116-124 | the canvas becomes `Put` of the splat glyph |
| `Raster.Canvas.Text` | rendermaps/canvas.go:126-135 | the canvas becomes `TextAt`: each character at two columns per byte offset from the centred start |
| `Raster.Canvas.DrawPixel` | rendermaps/canvas.go:231-235 | the loop body paints by `SetPixel` or `setPixelSplat` as the flag says |
| `Raster.Canvas.Line` | rendermaps/canvas.go:198-249 | `line` paints exactly the points of `Segment` (the sequence `bresenham` returns), in order |
| `Raster.Canvas.Polyline` | rendermaps/canvas.go:169-173 | the canvas becomes the old one with `PolylinePixels` painted |
| `Raster.Canvas.FillSpan` | rendermaps/canvas.go:355-357 | one span is painted from its first to its last column inclusive |
| `Raster.Canvas.FillRows` | rendermaps/canvas.go:342-360 | the scanline loop paints the spans `SpansFrom` computes from the sorted points |
| `Raster.Canvas.ScanRun` | rendermaps/canvas.go:345-351 | the inner scan finds the end of the run of points on one row and that run's last point |
| `Raster.Canvas.FilledTriangle` | rendermaps/canvas.go:320-361 | the canvas becomes the old one with `TrianglePixels` of the truncated corners painted |
| `Raster.Canvas.FillTriangles` | rendermaps/canvas.go:269-275 | the triangles of the triangulation are filled one after the other |
| `Raster.Canvas.Polygon` | rendermaps/canvas.go:251-276 | no rings draws nothing; otherwise every triangle of the given triangulation is filled |
| `Raster.Canvas.CellText` | rendermaps/canvas.go:143-158 | a cell writes a colour switch only if needed, then its glyph; the colour in force becomes the cell's |
| `Raster.Canvas.RowText` | rendermaps/canvas.go:142-159 | a row is the text of its cells, starting with no colour in force |
| `Raster.Canvas.Frame` | rendermaps/canvas.go:137-167 | `Frame` returns the flattened `FrameOf` of the canvas |
| `Raster.FrameRow` | rendermaps/canvas.go:141-143 | every row's cells lie inside the buffer |
| `Frames.RowGlyphs` | rendermaps/canvas.go:142-159 | a row shows the glyphs of its cells left to right (override char, else `0x2800+bits` if any bit, else space), has no line break, and leaves its last cell's colour in force |
| `Frames.RowColours` | rendermaps/canvas.go:144-151 | when a cell's glyph is written, the colour in force is that cell's colour |
| `Frames.SwitchOnlyOnChange` | rendermaps/canvas.go:145-151 | an escape is written iff the cell colour differs from the current one, and it starts with a reset |
| `Frames.RowLineShape` | rendermaps/canvas.go:160-164 | each row is `width/2` glyphs then a reset, with a line break only if it is not the last row |
| `Frames.FrameOf` | rendermaps/canvas.go:137-167 | the frame's tokens: the glyphs of all `rows*cols` cells in order, `rows-1` line breaks, and a final reset |
| `Frames.FrameShape` | rendermaps/canvas.go:137-167 | the frame shows the glyphs of all `rows*cols` cells in row-major order, with `rows-1` line breaks, ending in a reset and never in a line break |
| `Frames.UniformRow` | rendermaps/canvas.go:142-159 | a row of one non-empty colour writes a single reset and escape, then its glyphs |
| `Frames.FrameStringTokens` | rendermaps/canvas.go:137-167 | the string the loops build is the flattening of the frame tokens |
| `Scanlines.SortByRowSpec` | rendermaps/canvas.go:330-335 | the reference sort orders points by (y, then x) and is a permutation |
| `Scanlines.SortedUnique` | rendermaps/canvas.go:330-335 | two sorted permutations of the same points are equal, so the unstable `sort.Slice` gives this one order |
| `Scanlines.SpansFrom` | rendermaps/canvas.go:342-360 | the spans the scanline loop draws from index `i` on: at most one per remaining point |
| `Scanlines.SpansCoverRows` | rendermaps/canvas.go:342-360 | a span is drawn on the row of every sorted point except a last point alone on its row (the `i < len-1` guard) |
| `Scanlines.SpansSpanRows` | rendermaps/canvas.go:342-360 | each span runs from the leftmost to the rightmost point of its row |
| `Scanlines.InFill` | rendermaps/canvas.go:355-357 | every pixel of every span is painted |
| `Scanlines.LastRowShared` | rendermaps/canvas.go:320-361 | for a triangle the last row of sorted edge points has at least two points, because the lowest vertex is traced twice |
| `Scanlines.TrianglePixels` | rendermaps/canvas.go:320-361 | what `filledTriangle` paints: every point on the triangle's three edges is among it, since the `len-1` guard never skips a row of a triangle |
| `Scanlines.LastLonePointSkipped` | rendermaps/canvas.go:342 | the sorted points (0,0), (1,0), (5,1) fill only row 0: a final lone point is not drawn |
| `Render.VisibleBounds` | rendermaps/canvas.go:32-34 | a feature is drawn iff (minzoom == 0 or zoom >= minzoom) and (maxzoom == 0 or zoom <= maxzoom) |
| `Render.Plan` | rendermaps/canvas.go:31-81 | a visible fill polygon is filled, a visible line string is stroked, and a visible symbol point is labelled (POIMarker when unnamed), all in the feature colour; anything else is skipped |
| `Render.LabelWrittenIffFree` | rendermaps/canvas.go:73-79 | a symbol's text is written iff its label box is free, and then the box is recorded; otherwise nothing changes |
| `Render.Query` | rendermaps/canvas.go:17-20 | the search box is the canvas rectangle in tile units, `width*scale` by `height*scale` |
| `Render.VisitSelects` | rendermaps/canvas.go:18-28 | a feature is drawn iff its box meets the query and its style's source layer is the requested one |
| `Render.RenderKeepsLabels` | rendermaps/canvas.go:13-29 | drawing never removes a placed label and keeps placed labels pairwise disjoint |
| `Render.DrawFeature` | rendermaps/canvas.go:31-81 | `drawFeature` applies exactly the effect of its `Plan` to the canvas and the label buffer |
| `Render.RenderTileLayer` | rendermaps/canvas.go:13-29 | a tile with extent 0 draws nothing; otherwise the selected features are drawn in turn |
| `Search.Keep` | api/search.go:22 | the first replacement keeps only ASCII letters, digits and RE2 white space, and never lengthens |
| `Search.RunLen` | api/search.go:13 | the run found is maximal: all word characters, followed by a non-word character or the end |
| `Search.Star` | api/search.go:22 | the second replacement only inserts: the output is at least as long as the input and at most twice as long, one `*` at most per character |
| `Search.SanitiseAlphabet` | api/search.go:21-23 | every output character is an ASCII letter or digit, `\t \n \f \r`, space, or `*` |
| `Search.SanitiseStars` | api/search.go:13-23 | every `*` follows a word character, and every word character is followed by another or by `*`: one star after each maximal run |
| `Search.Sanitise` | api/search.go:21-25 | deleting all `*` from the output gives the input with disallowed characters removed, order and white space preserved |
| `Search.EmptyIffNothingKept` | api/search.go:22-23 | the output is empty iff the input has no allowed character (for example, empty or only punctuation) |
| `Search.Idempotent` | api/search.go:12-23 | sanitising twice equals sanitising once |
| `Search.SydAirport` | api/api_test/search_test.go:22 | "syd airport" becomes "syd* airport*" |
| `Search.InternationalAirport` | api/api_test/search_test.go:23 | "international airport" becomes "international* airport*" |
| `AppStates.Top` | ui/state.go:41-47 | nil iff the stack is empty, otherwise the last pushed element |
| `AppStates.StateStack.constructor` | ui/state.go:9-11 | the zero stack is empty |
| `AppStates.StateStack.Push` | ui/state.go:23-25 | the state is appended on top |
| `AppStates.StateStack.Pop` | ui/state.go:29-38 | empty: returns nil and stays empty; otherwise returns the top and removes only it, the rest unchanged and in order |
| `AppStates.StateStack.Peek` | ui/state.go:41-47 | returns the top or nil, without changing the stack |
| `AppStates.StateStack.Length` | ui/state.go:49-51 | returns the number of states, without changing the stack |
| `AppStates.PushedIsTop` | ui/state.go:23-25 | after a push the pushed state is on top and the length is one greater |
| `AppStates.PopUndoesPush` | ui/state.go:23-38 | popping a pushed state returns it and restores the previous sequence |
| `AppStates.PushThenPop` | ui/state.go:23-38 | on a live stack, `Push(s)` then `Pop()` returns `s` and restores the stack |
| `AppStates.PushThenPeek` | ui/state.go:23-51 | on a live stack, `Push(s)` then `Peek()` and `Length()` give `s` and the old length plus one |

## Left out

- Floating-point projection math is not modelled: `FocusOn`, `geoToPixel`, `yMercatorNormalized`, `ll2tile`, `tilesizeAtZoom`, the `transform` closure of `drawFeature`, and `SplatLineGeo` apart from the `line` call it ends with (`Raster.Canvas.Line` with the splat flag set).
- `Render.DrawFeature`: the transformed rings, the transformed line, the transformed point and the label's display width are inputs (a `Drawing`). The model does not compute them.
- Network and disk I/O are not modelled: the HTTP fetch, the disk cache (`cacheGetKey`, `cacheInsertKey`) and its file layout. `GetTile` takes their outcome as a `Fetch` argument, and a ghost counter stands for the number of fetches.
- Gzip and `mvt.Unmarshal` are not modelled. `Tile.Load` takes the decoded layers, or `None` for a decoding error. A geometry is reduced to its kind and bounding box.
- The raw-bytes fallback of `Load` (rendermaps/tile.go:119-129) is dead code. When `gzip.NewReader` fails, `data = buffer` runs but `err` still holds the gzip error, so `Load` returns that error and every uncompressed body fails to load. The model takes the decoding outcome as its input, so such a body is one for which that input is `None`. After that failure `GetTile` keeps the mutex locked, as the concurrency line below says.
- `earcut.Earcut` is not modelled. `Polygon` takes its triangle list as an argument. The panic on an earcut error is replaced by the precondition that the triangles index the ring vertices.
- `simplify.DouglasPeucker` is not modelled; the simplified line is an input.
- `runewidth.StringWidth` is not modelled; the display width is a parameter of `Text` and `WriteIfPossible`.
- The `tidwall/rtree` trees are sequences of boxes in insertion order.
- `Render.RenderTileLayer`: visits entries in insertion order. The real order is whatever the R-tree search yields, and label placement depends on it.
- Concurrency: the `sync.Mutex` of `GetTile` is not modelled, and calls are sequential. On the load-failure path (rendermaps/tile.go:105-108) `GetTile` returns while still holding the lock, so the next call would block forever. The model cannot show this.
- `Tiles.GetTileTwice`: for a fetch whose load fails, its second clause promises a second fetch; that is the behaviour of the lock-free model, while the Go program's second call deadlocks on the mutex the first call left locked.
- The `Canvas` methods use the corrected projection `Cells.Project` for every size, and draw nothing for a pixel outside the whole-cell rectangle. Where the width is odd or the height not a multiple of 4, Go differs as follows:
  - `SetPixel` indexes the `pixelBuffer` slice (rendermaps/canvas.go:109). On an overrun past the last cell it panics; on an odd-width wrap it ORs the dot into the first cell of the next row.
  - `setPixelSplat` and `Text` write only the character and colour maps (rendermaps/canvas.go:116-135), so they never panic. On an overrun they store an entry at an index `Frame` never reads (rendermaps/canvas.go:141-144), which gives the same output as the model. On an odd-width wrap they overwrite the character and colour of the next row's first cell, which the model does not show.
- Integers are unbounded. Go's `int` is 64-bit, and `int(f)` of a float outside its range is implementation-defined. `Geometry.Trunc`, `Lines.Prepare`, `Lines.Advance` and `Cells.Project` therefore agree with Go only while values stay within 64 bits. At canvas scale they do: pixel coordinates and cell indexes are far below 2^63.
- Numbers are reals. NaN and rounding are not modelled, and vector-tile numeric properties are taken to be decoded as float64. The `int` literal branches of `==` and `!=` (rendermaps/style.go:318, 330) cannot fire on JSON-decoded filters and have no counterpart.
- A Go panic inside `compileFilter` is not modelled as a crash: an unhashable `in`/`!in` literal makes `Compile`, and so `NewStyler`, return `None`.
- Reading and JSON-decoding the style document are not modelled; `NewStyler` takes the decoded layer list. `layout`, `name` and `constants` are not modelled because the code never reads them.
- `Colors.HexToAnsi`: it does not model `fmt.Sscanf` skipping leading spaces before each field. Strings are sequences of characters, so the 3-character test counts characters rather than UTF-8 bytes.
- `Colors.InvalidIsBlack`: the same gap. `"# ff0000"` is red in Go, because `Sscanf` skips the space, but black in the model, so the lemma matches Go only for strings that do not start with a space.
- `Cells.TextPlacement`: placement is proved for ASCII text only. The model of `Text` itself steps two columns per UTF-8 byte offset for any text.
- `AppStates.Top`: a nil `AppState` pushed onto the stack is not a separate case. The state type is a type parameter and an empty stack gives `None`.
- The debug `fmt.Printf` logging in rendermaps/style.go is a side effect and is not modelled.
- `baseZoom` in rendermaps/style.go has no `TileRange` clamp; that revision is not modelled.
- The renderer's 3×3 tile fan-out, the bubbletea UI other than the state stack, and the SQL and CSV loaders are outside this model.

## Findings

| source | as written | input that shows it | evidently intended | confidence | as-written member | corrected member |
|---|---|---|---|---|---|---|
| rendermaps/canvas.go:100-105 | `project` accepts any pixel with `x < width` and `y < height`, but the buffer holds only `(width/2)*(height/4)` cells | width 3, height 4, pixel (2, 0): `project` gives index 1 in a 1-cell buffer, so `SetPixel` indexes past the slice and panics | reject pixels outside the whole-cell rectangle `2*(width/2)` by `4*(height/4)`, so every index is inside the buffer | not executed; high | `Cells.ProjectAsWrittenOverruns` | `Cells.Project` |
| rendermaps/canvas.go:100-105 | for an odd width, `project` computes `x/2 + (width/2)*(y/4)`, so the last pixel column of a row of cells lands in the first cell of the next row | width 3, height 8, pixel (2, 0): index 1, the cell of pixel (0, 4); `SetPixel` ORs dot 0x01 into that cell with no panic | reject pixels outside the whole-cell rectangle, so no pixel reaches another row's cell | not executed; high | `Cells.ProjectAsWrittenWraps` | `Cells.Project` |
