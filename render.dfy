/**
 * Drawing one layer of a tile onto the canvas (rendermaps/canvas.go
 * `renderTileLayer` and `drawFeature`): which features are drawn, and which
 * canvas operation each one becomes.
 *
 * The floating-point and foreign steps are inputs. For every R-tree entry a
 * `Drawing` holds what they would have produced for it: the rings, line or
 * point moved into canvas coordinates by `transform`, the triangle list
 * `earcut` returns for the rings, the line `DouglasPeucker` returns, and the
 * display width of the label.
 */
module Render {

  import opened Geometry
  import opened Tiles
  import opened Labels
  import opened Cells
  import opened Scanlines
  import opened Raster

  /** `drawFeature`'s zoom gate; a bound of 0 is no bound. */
  predicate Visible(minZoom: real, maxZoom: real, zoom: real) {
    !((minZoom != 0.0 && zoom < minZoom) || (maxZoom != 0.0 && zoom > maxZoom))
  }

  /** A feature is drawn at `zoom` exactly when every non-zero bound admits it; bounds are inclusive. */
  lemma VisibleBounds(minZoom: real, maxZoom: real, zoom: real)
    ensures Visible(minZoom, maxZoom, zoom) <==>
      (minZoom == 0.0 || minZoom <= zoom) && (maxZoom == 0.0 || zoom <= maxZoom)
  {
  }

  /** What the float and foreign steps produce for one feature. */
  datatype Drawing = Drawing(rings: seq<seq<Point>>, triangles: seq<nat>, line: seq<Point>, point: Point, labelWidth: nat)

  /** The canvas operation a feature becomes. */
  datatype Action =
    | Skip
    | Fill(rings: seq<seq<Point>>, triangles: seq<nat>, color: string)
    | Stroke(points: seq<Point>, color: string)
    | Label(text: string, p: Point, width: nat, color: string)

  /** `drawFeature`'s decision. Off-zoom features are skipped, and so is geometry whose Go type
      does not suit the layer type (multi-geometries are never drawn); a symbol without a label
      shows `marker` (`POIMarker`). */
  function Plan(f: StyledFeature, d: Drawing, zoom: real, marker: string): (a: Action)
    ensures a.Fill? <==> Visible(f.style.def.minZoom, f.style.def.maxZoom, zoom) && f.style.def.kind == "fill" && f.geom.kind == PolygonGeom
    ensures a.Stroke? <==> Visible(f.style.def.minZoom, f.style.def.maxZoom, zoom) && f.style.def.kind == "line" && f.geom.kind == LineStringGeom
    ensures a.Label? <==> Visible(f.style.def.minZoom, f.style.def.maxZoom, zoom) && f.style.def.kind == "symbol" && f.geom.kind == PointGeom
    ensures a.Fill? ==> a.rings == d.rings && a.triangles == d.triangles
    ensures a.Stroke? ==> a.points == d.line
    ensures a.Label? ==> a.text == (if f.labelText == "" then marker else f.labelText) && a.p == d.point && a.width == d.labelWidth
    ensures !a.Skip? ==> a.color == f.color
  {
    if !Visible(f.style.def.minZoom, f.style.def.maxZoom, zoom) then Skip
    else if f.style.def.kind == "fill" then
      if f.geom.kind == PolygonGeom then Fill(d.rings, d.triangles, f.color) else Skip
    else if f.style.def.kind == "line" then
      if f.geom.kind == LineStringGeom then Stroke(d.line, f.color) else Skip
    else if f.style.def.kind == "symbol" then
      if f.geom.kind == PointGeom then
        Label(if f.labelText == "" then marker else f.labelText, d.point, d.labelWidth, f.color)
      else Skip
    else Skip
  }

  /** What `earcut` promises: whole triangles whose corners are vertices of the rings. */
  predicate Triangulated(d: Drawing) {
    |d.triangles| % 3 == 0 && forall t | t in d.triangles :: t < |Vertices(d.rings)|
  }

  predicate Ready(a: Action) {
    a.Fill? ==> |a.triangles| % 3 == 0 && forall t | t in a.triangles :: t < |Vertices(a.rings)|
  }

  lemma PlanReady(f: StyledFeature, d: Drawing, zoom: real, marker: string)
    requires Triangulated(d)
    ensures Ready(Plan(f, d, zoom, marker))
  {
  }

  /** The canvas and the placed labels, as values. */
  datatype View = View(cells: Cells, placed: seq<Placed>)

  /** A symbol drawn at canvas point `p` claims the label box of the character cell p falls in. */
  function SymbolBox(p: Point, width: nat): Box {
    LabelBox(Trunc(p.x / 2.0), Trunc(p.y / 4.0), width)
  }

  /** What one action does to the canvas and the label buffer. */
  function Effect(v: View, width: nat, height: nat, a: Action): (r: View)
    requires |v.cells.pixels| == Size(width, height) && Ready(a)
    ensures |r.cells.pixels| == |v.cells.pixels|
    ensures !a.Label? ==> r.placed == v.placed
    ensures a.Skip? ==> r == v
  {
    match a
    case Skip => v
    case Fill(rings, triangles, color) =>
      if rings == [] then v
      else View(PaintAll(v.cells, width, height, TrianglesPixels(Vertices(rings), triangles, |triangles| / 3), color, false), v.placed)
    case Stroke(points, color) =>
      View(PaintAll(v.cells, width, height, PolylinePixels(points), color, false), v.placed)
    case Label(text, p, w, color) =>
      var (placed, accepted) := Offer(v.placed, text, SymbolBox(p, w));
      TextKeepsPixels(v.cells, width, height, text, w, Trunc(p.x), Trunc(p.y), color, |text|);
      View(if accepted then TextAt(v.cells, width, height, text, w, Trunc(p.x), Trunc(p.y), color) else v.cells, placed)
  }

  /** A label is written exactly when its box is free; a label that does not fit changes nothing,
      and one that fits is added to the buffer and its text put on the canvas. */
  lemma LabelWrittenIffFree(v: View, width: nat, height: nat, text: string, p: Point, w: nat, color: string)
    requires |v.cells.pixels| == Size(width, height)
    ensures var r := Effect(v, width, height, Label(text, p, w, color));
      (r.placed != v.placed <==> !Collides(v.placed, SymbolBox(p, w))) &&
      (Collides(v.placed, SymbolBox(p, w)) ==> r == v) &&
      (!Collides(v.placed, SymbolBox(p, w)) ==>
        r.placed == v.placed + [Placed(SymbolBox(p, w), text)] &&
        r.cells == TextAt(v.cells, width, height, text, w, Trunc(p.x), Trunc(p.y), color))
  {
    var r := Effect(v, width, height, Label(text, p, w, color));
    if !Collides(v.placed, SymbolBox(p, w)) {
      assert |r.placed| == |v.placed| + 1;
    }
  }

  predicate AllReady(acts: seq<Action>) {
    forall i | 0 <= i < |acts| :: Ready(acts[i])
  }

  /** The actions applied one after the other, as the R-tree callback runs them. */
  function RenderAll(v: View, width: nat, height: nat, acts: seq<Action>): (r: View)
    requires |v.cells.pixels| == Size(width, height) && AllReady(acts)
    ensures |r.cells.pixels| == |v.cells.pixels|
    decreases |acts|
  {
    if acts == [] then v
    else
      var before := RenderAll(v, width, height, acts[..|acts| - 1]);
      Effect(before, width, height, acts[|acts| - 1])
  }

  /** Labels placed earlier are never removed, and whatever is placed stays pairwise disjoint. */
  lemma {:induction false} RenderKeepsLabels(v: View, width: nat, height: nat, acts: seq<Action>)
    requires |v.cells.pixels| == Size(width, height) && AllReady(acts)
    ensures v.placed <= RenderAll(v, width, height, acts).placed
    ensures PairwiseDisjoint(v.placed) ==> PairwiseDisjoint(RenderAll(v, width, height, acts).placed)
    decreases |acts|
  {
    if acts != [] {
      var init := acts[..|acts| - 1];
      assert AllReady(init) by {
        forall i | 0 <= i < |init| ensures Ready(init[i]) { assert init[i] == acts[i]; }
      }
      RenderKeepsLabels(v, width, height, init);
      var before := RenderAll(v, width, height, init);
      var a := acts[|acts| - 1];
      if a.Label? {
        if PairwiseDisjoint(v.placed) {
          OfferKeepsDisjoint(before.placed, a.text, SymbolBox(a.p, a.width));
        }
      }
    }
  }

  /** The query box: the canvas rectangle in tile coordinates. */
  function Query(pos: Point, scale: real, width: nat, height: nat): (q: Box)
    requires scale > 0.0
    ensures q.maxX - q.minX == width as real * scale && q.maxY - q.minY == height as real * scale
  {
    Box(-pos.x * scale, -pos.y * scale, (width as real - pos.x) * scale, (height as real - pos.y) * scale)
  }

  /** An entry the search reports and the callback draws: it overlaps the query and its style reads `layerName`. */
  predicate Selected(e: Entry, q: Box, layerName: string) {
    Intersects(e.box, q) && e.item.style.def.sourceLayer == layerName
  }

  /** The actions the callback takes for the first `n` entries. */
  function Visit(entries: seq<Entry>, drawings: seq<Drawing>, q: Box, layerName: string, zoom: real, marker: string, n: nat): (acts: seq<Action>)
    requires n <= |entries| == |drawings|
    ensures |acts| <= n
  {
    if n == 0 then []
    else
      Visit(entries, drawings, q, layerName, zoom, marker, n - 1) +
      (if Selected(entries[n - 1], q, layerName) then [Plan(entries[n - 1].item, drawings[n - 1], zoom, marker)] else [])
  }

  /** An action is taken exactly when it is the plan of some selected entry. */
  lemma {:induction false} VisitSelects(entries: seq<Entry>, drawings: seq<Drawing>, q: Box, layerName: string, zoom: real, marker: string, n: nat, a: Action)
    requires n <= |entries| == |drawings|
    ensures a in Visit(entries, drawings, q, layerName, zoom, marker, n) <==>
      exists i | 0 <= i < n :: Selected(entries[i], q, layerName) && a == Plan(entries[i].item, drawings[i], zoom, marker)
  {
    if n > 0 {
      VisitSelects(entries, drawings, q, layerName, zoom, marker, n - 1, a);
      if Selected(entries[n - 1], q, layerName) && a == Plan(entries[n - 1].item, drawings[n - 1], zoom, marker) {
        assert a in Visit(entries, drawings, q, layerName, zoom, marker, n);
      }
    }
  }

  /** Every action taken is ready when the triangulations are well-formed. */
  lemma {:induction false} VisitReady(entries: seq<Entry>, drawings: seq<Drawing>, q: Box, layerName: string, zoom: real, marker: string, n: nat)
    requires n <= |entries| == |drawings|
    requires forall i | 0 <= i < |drawings| :: Triangulated(drawings[i])
    ensures AllReady(Visit(entries, drawings, q, layerName, zoom, marker, n))
  {
    if n > 0 {
      VisitReady(entries, drawings, q, layerName, zoom, marker, n - 1);
      PlanReady(entries[n - 1].item, drawings[n - 1], zoom, marker);
    }
  }

  /** What drawing the first `n` entries of the tile does to a starting view. */
  function Rendered(v: View, width: nat, height: nat, entries: seq<Entry>, drawings: seq<Drawing>, q: Box, layerName: string, zoom: real, marker: string, n: nat): (r: View)
    requires |v.cells.pixels| == Size(width, height)
    requires n <= |entries| == |drawings|
    requires forall j | 0 <= j < |drawings| :: Triangulated(drawings[j])
    ensures |r.cells.pixels| == |v.cells.pixels|
  {
    VisitReady(entries, drawings, q, layerName, zoom, marker, n);
    RenderAll(v, width, height, Visit(entries, drawings, q, layerName, zoom, marker, n))
  }

  /** Taking one more entry either applies its plan or leaves the result as it was. */
  lemma RenderStep(v: View, width: nat, height: nat, entries: seq<Entry>, drawings: seq<Drawing>, q: Box, layerName: string, zoom: real, marker: string, i: nat)
    requires |v.cells.pixels| == Size(width, height)
    requires i < |entries| == |drawings|
    requires forall j | 0 <= j < |drawings| :: Triangulated(drawings[j])
    ensures (PlanReady(entries[i].item, drawings[i], zoom, marker);
      var before := Rendered(v, width, height, entries, drawings, q, layerName, zoom, marker, i);
      Rendered(v, width, height, entries, drawings, q, layerName, zoom, marker, i + 1) ==
        if Selected(entries[i], q, layerName) then Effect(before, width, height, Plan(entries[i].item, drawings[i], zoom, marker))
        else before)
  {
    VisitReady(entries, drawings, q, layerName, zoom, marker, i);
    VisitReady(entries, drawings, q, layerName, zoom, marker, i + 1);
    PlanReady(entries[i].item, drawings[i], zoom, marker);
    var acts := Visit(entries, drawings, q, layerName, zoom, marker, i + 1);
    if Selected(entries[i], q, layerName) {
      assert acts[..|acts| - 1] == Visit(entries, drawings, q, layerName, zoom, marker, i);
    } else {
      assert acts == Visit(entries, drawings, q, layerName, zoom, marker, i);
    }
  }

  /** `drawFeature`. */
  method DrawFeature(canvas: Canvas, lb: LabelBuffer, f: StyledFeature, d: Drawing, zoom: real, marker: string)
    requires canvas.Valid() && lb.Valid() && Triangulated(d)
    modifies canvas, canvas.pixels, lb
    ensures canvas.Valid() && lb.Valid()
    ensures (PlanReady(f, d, zoom, marker);
      View(canvas.Screen(), lb.placed) == Effect(View(old(canvas.Screen()), old(lb.placed)), canvas.width, canvas.height, Plan(f, d, zoom, marker)))
  {
    PlanReady(f, d, zoom, marker);
    if (f.style.def.minZoom != 0.0 && zoom < f.style.def.minZoom) || (f.style.def.maxZoom != 0.0 && zoom > f.style.def.maxZoom) {
      return;
    }
    if f.style.def.kind == "fill" {
      if f.geom.kind == PolygonGeom {
        canvas.Polygon(d.rings, d.triangles, f.color);
      }
    } else if f.style.def.kind == "line" {
      if f.geom.kind == LineStringGeom {
        canvas.Polyline(d.line, f.color);
      }
    } else if f.style.def.kind == "symbol" {
      var text := f.labelText;
      if text == "" {
        text := marker;
      }
      if f.geom.kind == PointGeom {
        var tp := d.point;
        var charX, charY := Trunc(tp.x / 2.0), Trunc(tp.y / 4.0);
        var accepted := lb.WriteIfPossible(text, d.labelWidth, charX, charY);
        if accepted {
          canvas.Text(text, d.labelWidth, Trunc(tp.x), Trunc(tp.y), f.color);
        }
      }
    }
  }

  /** `renderTileLayer`: search the tile's R-tree with the canvas rectangle and draw the entries
      styled for `layerName`; a tile with extent 0 draws nothing. */
  method RenderTileLayer(canvas: Canvas, lb: LabelBuffer, tile: Tile, drawings: seq<Drawing>, pos: Point, tileSize: real, zoom: real, layerName: string, marker: string)
    requires canvas.Valid() && lb.Valid() && tileSize > 0.0
    requires |drawings| == |tile.entries| && forall i | 0 <= i < |drawings| :: Triangulated(drawings[i])
    modifies canvas, canvas.pixels, lb
    ensures canvas.Valid() && lb.Valid()
    ensures tile.layer.extent == 0 ==> canvas.Screen() == old(canvas.Screen()) && lb.placed == old(lb.placed)
    ensures tile.layer.extent != 0 ==>
      View(canvas.Screen(), lb.placed) == Rendered(View(old(canvas.Screen()), old(lb.placed)), canvas.width, canvas.height,
        tile.entries, drawings, Query(pos, tile.layer.extent as real / tileSize, canvas.width, canvas.height), layerName, zoom, marker, |drawings|)
  {
    if tile.layer.extent == 0 {
      return;
    }
    var scale := tile.layer.extent as real / tileSize;
    var q := Query(pos, scale, canvas.width, canvas.height);
    ghost var start := View(canvas.Screen(), lb.placed);
    var i := 0;
    while i < |tile.entries|
      invariant 0 <= i <= |tile.entries|
      invariant canvas.Valid() && lb.Valid()
      invariant View(canvas.Screen(), lb.placed) == Rendered(start, canvas.width, canvas.height, tile.entries, drawings, q, layerName, zoom, marker, i)
    {
      var e := tile.entries[i];
      ghost var before := View(canvas.Screen(), lb.placed);
      RenderStep(start, canvas.width, canvas.height, tile.entries, drawings, q, layerName, zoom, marker, i);
      if e.item.style.def.sourceLayer == layerName && Intersects(e.box, q) {
        PlanReady(e.item, drawings[i], zoom, marker);
        DrawFeature(canvas, lb, e.item, drawings[i], zoom, marker);
        assert View(canvas.Screen(), lb.placed) == Effect(before, canvas.width, canvas.height, Plan(e.item, drawings[i], zoom, marker));
      }
      i := i + 1;
    }
  }
}
