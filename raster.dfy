/**
 * `Canvas` of rendermaps/canvas.go: a fixed byte buffer of braille dot bits,
 * one byte per 2×4-pixel cell, plus the override-character and colour maps
 * the drawing methods update in place. Every method is proved to perform the
 * value-level operation of module Cells (or Scanlines) on the canvas state.
 */
module Raster {

  import opened Wrappers
  import opened Geometry
  import opened Lines
  import opened Cells
  import opened Frames
  import opened Scanlines
  import opened Seqs

  class Canvas {
    const width: nat
    const height: nat
    const pixels: array<bv8>
    var chars: map<int, char>
    var colors: map<int, string>

    ghost predicate Valid()
      reads this
    {
      pixels.Length == Size(width, height)
    }

    /** The canvas as a value. */
    function Screen(): Cells
      reads this, pixels
    {
      Cells(pixels[..], chars, colors)
    }

    /** `NewCanvas`: `(width/2)*(height/4)` blank cells and no characters or colours. */
    constructor(width: nat, height: nat)
      ensures Valid() && this.width == width && this.height == height && fresh(pixels)
      ensures Screen() == Cells(seq(Size(width, height), _ => 0), map[], map[])
    {
      this.width, this.height := width, height;
      pixels := new bv8[Size(width, height)](_ => 0);
      chars, colors := map[], map[];
    }

    /** `SetPixel`. */
    method SetPixel(x: int, y: int, color: string)
      requires Valid()
      modifies this, pixels
      ensures Valid() && Screen() == Plot(old(Screen()), width, height, x, y, color)
    {
      match Project(width, height, x, y) {
        case None =>
        case Some(idx) =>
          PlotCell(idx, Dot(x, y), color);
          PlotAt(old(Screen()), width, height, x, y, color, idx);
      }
    }

    /** The body of `SetPixel` for cell `idx`: or in the dot, and colour the cell if it has no
        colour yet. */
    method PlotCell(idx: nat, dot: bv8, color: string)
      requires idx < pixels.Length
      modifies this, pixels
      ensures Screen() == Cells(old(pixels[..])[idx := old(pixels[idx]) | dot], old(chars),
        if idx in old(colors) then old(colors) else old(colors)[idx := color])
    {
      pixels[idx] := pixels[idx] | dot;
      if idx !in colors {
        colors := colors[idx := color];
      }
    }

    /** `setPixelSplat`. */
    method SetPixelSplat(x: int, y: int, color: string)
      requires Valid()
      modifies this
      ensures Valid() && Screen() == Put(old(Screen()), width, height, x, y, SplatChar, color)
    {
      match Project(width, height, x, y) {
        case None =>
        case Some(idx) =>
          chars := chars[idx := SplatChar];
          colors := colors[idx := color];
      }
    }

    /** `Text`, with the display width of `text` given as `textWidth`. */
    method Text(text: string, textWidth: nat, x: int, y: int, color: string)
      requires Valid()
      modifies this
      ensures Valid() && Screen() == TextAt(old(Screen()), width, height, text, textWidth, x, y, color)
    {
      var start := x - (textWidth / 2) * 2;
      var k := 0;
      var i := 0;
      while k < |text|
        invariant 0 <= k <= |text| && i == ByteLen(text[..k])
        invariant Screen() == TextUpTo(old(Screen()), width, height, text, textWidth, x, y, color, k)
      {
        var r := text[k];
        match Project(width, height, start + i * 2, y) {
          case None =>
          case Some(idx) =>
            chars := chars[idx := r];
            colors := colors[idx := color];
        }
        assert text[..k + 1][..k] == text[..k];
        i := i + Utf8Len(r);
        k := k + 1;
      }
    }

    /** `line`, with its optional flag as `splat`: paint the pixels of `Segment` one by one. */
    method Line(p1: Point, p2: Point, color: string, splat: bool)
      requires Valid()
      modifies this, pixels
      ensures Valid() && Screen() == PaintAll(old(Screen()), width, height, Segment(ToPixel(p1), ToPixel(p2)), color, splat)
    {
      var start, end := ToPixel(p1), ToPixel(p2);
      var dx, dy, sx, sy, err := Prepare(start, end);
      var x0, y0, x1, y1 := start.x, start.y, end.x, end.y;
      ghost var c := Config(x1, y1, dx, -dy, sx, sy);
      ghost var fuel := Dist(c, State(x0, y0, err));
      ghost var whole := Segment(start, end);
      SetupTracing(start, end);
      ghost var done: seq<Pixel> := [];
      ghost var before := Screen();
      ghost var s := State(x0, y0, err);
      while true
        invariant Valid() && s == State(x0, y0, err) && |before.pixels| == Size(width, height)
        invariant Tracing(c, s, fuel, done, whole)
        invariant Screen() == PaintAll(before, width, height, done, color, splat)
        decreases Dist(c, s)
      {
        PaintNext(x0, y0, color, splat, before, done);
        if x0 == x1 && y0 == y1 {
          TracingDone(c, s, fuel, done, whole);
          done := done + [Pixel(x0, y0)];
          break;
        }
        TracingStep(c, s, fuel, done, whole);
        done := done + [Here(s)];
        x0, y0, err := Advance(x0, y0, err, dx, dy, sx, sy, c);
        s, fuel := Next(c, s), fuel - 1;
      }
    }

    /** One more pixel of a line: the screen is `before` with one more point painted. */
    method PaintNext(x: int, y: int, color: string, splat: bool, ghost before: Cells, ghost done: seq<Pixel>)
      requires Valid() && |before.pixels| == Size(width, height)
      requires Screen() == PaintAll(before, width, height, done, color, splat)
      modifies this, pixels
      ensures Valid() && Screen() == PaintAll(before, width, height, done + [Pixel(x, y)], color, splat)
    {
      DrawPixel(x, y, color, splat);
      PaintSnoc(before, width, height, done, Pixel(x, y), color, splat);
    }

    /** The body of `line`'s loop: `SetPixel` or `setPixelSplat`, as the flag says. */
    method DrawPixel(x: int, y: int, color: string, splat: bool)
      requires Valid()
      modifies this, pixels
      ensures Valid() && Screen() == Draw(old(Screen()), width, height, Pixel(x, y), color, splat)
    {
      if splat {
        SetPixelSplat(x, y, color);
      } else {
        SetPixel(x, y, color);
      }
    }

    /** `Polyline`: a line between each pair of consecutive points. */
    method Polyline(points: seq<Point>, color: string)
      requires Valid()
      modifies this, pixels
      ensures Valid() && Screen() == PaintAll(old(Screen()), width, height, PolylinePixels(points), color, false)
    {
      ghost var start := Screen();
      var i := 0;
      while i < |points| - 1
        invariant Valid() && |start.pixels| == Size(width, height) && 0 <= i && (i == 0 || i < |points|)
        invariant Screen() == PaintAll(start, width, height, PolylinePixels(points[..Min(i + 1, |points|)]), color, false)
      {
        assert Min(i + 1, |points|) == i + 1;
        PolylineNext(points, i, color, start);
        i := i + 1;
      }
      assert points[..Min(i + 1, |points|)] == points;
    }

    /** One pass of `Polyline`'s loop: the segment from point `i` to point `i + 1`. */
    method PolylineNext(points: seq<Point>, i: nat, color: string, ghost start: Cells)
      requires Valid() && i + 1 < |points| && |start.pixels| == Size(width, height)
      requires Screen() == PaintAll(start, width, height, PolylinePixels(points[..i + 1]), color, false)
      modifies this, pixels
      ensures Valid() && Screen() == PaintAll(start, width, height, PolylinePixels(points[..i + 2]), color, false)
    {
      ghost var drawn := Screen();
      Line(points[i], points[i + 1], color, false);
      PolylineRound(start, drawn, Screen(), width, height, points, i, color);
    }

    /** The inner loop of `filledTriangle`: set the pixels of one span, left to right. */
    method FillSpan(y: int, from: int, to: int, color: string)
      requires Valid()
      modifies this, pixels
      ensures Valid() && Screen() == PaintAll(old(Screen()), width, height, SpanPixels(Span(y, from, to)), color, false)
    {
      var x := from;
      while x <= to
        invariant Valid() && from <= x && (x <= to + 1 || x == from)
        invariant Screen() == PaintAll(old(Screen()), width, height, seq(x - from, k => Pixel(from + k, y)), color, false)
      {
        ghost var row := seq(x - from, k => Pixel(from + k, y));
        SetPixel(x, y, color);
        assert seq(x + 1 - from, k => Pixel(from + k, y)) == row + [Pixel(x, y)];
        PaintSnoc(old(Screen()), width, height, row, Pixel(x, y), color, false);
        x := x + 1;
      }
      assert seq(x - from, k => Pixel(from + k, y)) == SpanPixels(Span(y, from, to));
    }

    /** `filledTriangle`: trace the three edges, sort the points, and fill each row's span. */
    method FilledTriangle(p1: Point, p2: Point, p3: Point, color: string)
      requires Valid()
      modifies this, pixels
      ensures Valid()
      ensures Screen() == PaintAll(old(Screen()), width, height, TrianglePixels(ToPixel(p1), ToPixel(p2), ToPixel(p3)), color, false)
    {
      var edge1 := Bresenham(p1, p2);
      var edge2 := Bresenham(p2, p3);
      var edge3 := Bresenham(p3, p1);
      var all := edge1 + edge2 + edge3;
      // `sort.Slice` with the (y, x) comparator; SortedUnique shows the order is forced.
      var pts := SortByRow(all);
      assert pts == SortByRow(Edges(ToPixel(p1), ToPixel(p2), ToPixel(p3)));
      // The points are never empty (every edge holds its end points), so `len == 0` needs no test.
      FillRows(pts, color);
    }

    /** The scanline loop of `filledTriangle` over the sorted edge points. */
    method FillRows(pts: seq<Pixel>, color: string)
      requires Valid()
      modifies this, pixels
      ensures Valid() && Screen() == PaintAll(old(Screen()), width, height, FillPixels(SpansFrom(pts, 0)), color, false)
    {
      ghost var start := Screen();
      ghost var spans := SpansFrom(pts, 0);
      ghost var drawn: seq<Span> := [];
      var i := 0;
      while i < |pts| - 1
        invariant Valid() && 0 <= i <= |pts|
        invariant drawn + SpansFrom(pts, i) == spans
        invariant Screen() == PaintAll(start, width, height, FillPixels(drawn), color, false)
        decreases |pts| - i
      {
        var j := FillNext(pts, i, color, start, drawn, spans);
        drawn := drawn + [NextSpan(pts, i)];
        i := j;
      }
      FillDone(pts, i, drawn, spans);
    }

    /** One round of the scanline loop: find the run of points on the row of `pts[i]` and fill
        the span between its first and last point. */
    method FillNext(pts: seq<Pixel>, i: nat, color: string, ghost start: Cells, ghost drawn: seq<Span>, ghost spans: seq<Span>)
      returns (j: nat)
      requires Valid() && |start.pixels| == Size(width, height)
      requires i + 1 < |pts| && drawn + SpansFrom(pts, i) == spans
      requires Screen() == PaintAll(start, width, height, FillPixels(drawn), color, false)
      modifies this, pixels
      ensures Valid() && i < j <= |pts| && (drawn + [NextSpan(pts, i)]) + SpansFrom(pts, j) == spans
      ensures Screen() == PaintAll(start, width, height, FillPixels(drawn + [NextSpan(pts, i)]), color, false)
    {
      var pStart := pts[i];
      var pEnd;
      j, pEnd := ScanRun(pts, i);
      assert Span(pStart.y, pStart.x, pEnd.x) == NextSpan(pts, i);
      ghost var mid := Screen();
      FillSpan(pStart.y, pStart.x, pEnd.x, color);
      FillStep(pts, i, drawn, spans);
      FillRound(start, mid, Screen(), width, height, drawn, NextSpan(pts, i), color);
    }

    /** The search for the last point on the row of `pts[i]`. */
    static method ScanRun(pts: seq<Pixel>, i: nat) returns (j: nat, pEnd: Pixel)
      requires i < |pts|
      ensures j == RunEnd(pts, i, i) && i < j && pEnd == pts[j - 1]
    {
      var pStart := pts[i];
      pEnd := pStart;
      j := i;
      while j < |pts| && pts[j].y == pStart.y
        invariant i <= j <= |pts| && RunEnd(pts, i, j) == RunEnd(pts, i, i)
        invariant if j == i then pEnd == pStart else pEnd == pts[j - 1]
        decreases |pts| - j
      {
        pEnd := pts[j];
        j := j + 1;
      }
    }

    /** `Polygon`, with the triangulation `earcut` returns for the rings' vertices given as `triangles`. */
    method Polygon(rings: seq<seq<Point>>, triangles: seq<nat>, color: string)
      requires Valid()
      requires |triangles| % 3 == 0 && forall t | t in triangles :: t < |Vertices(rings)|
      modifies this, pixels
      ensures Valid()
      ensures Screen() == if rings == [] then old(Screen())
        else PaintAll(old(Screen()), width, height, TrianglesPixels(Vertices(rings), triangles, |triangles| / 3), color, false)
    {
      if |rings| == 0 {
        return;
      }
      FillTriangles(Vertices(rings), triangles, color);
    }

    /** Fills the triangles of a triangulation of `vertices` one after the other. */
    method FillTriangles(vertices: seq<Point>, triangles: seq<nat>, color: string)
      requires Valid()
      requires |triangles| % 3 == 0 && forall t | t in triangles :: t < |vertices|
      modifies this, pixels
      ensures Valid()
      ensures Screen() == PaintAll(old(Screen()), width, height, TrianglesPixels(vertices, triangles, |triangles| / 3), color, false)
    {
      ghost var start := Screen();
      var count := |triangles| / 3;
      assert |triangles| == 3 * count;
      var n := 0;
      while n < count
        invariant Valid() && 0 <= n <= count
        invariant Screen() == PaintAll(start, width, height, TrianglesPixels(vertices, triangles, n), color, false)
      {
        FillTriangleStep(vertices, triangles, n, start, color);
        n := n + 1;
      }
    }

    /** One round of `FillTriangles`: triangle `n` is painted over the first `n`. */
    method FillTriangleStep(vertices: seq<Point>, triangles: seq<nat>, n: nat, ghost start: Cells, color: string)
      requires Valid() && |start.pixels| == Size(width, height)
      requires 3 * n + 3 <= |triangles| && forall t | t in triangles :: t < |vertices|
      requires Screen() == PaintAll(start, width, height, TrianglesPixels(vertices, triangles, n), color, false)
      modifies this, pixels
      ensures Valid()
      ensures Screen() == PaintAll(start, width, height, TrianglesPixels(vertices, triangles, n + 1), color, false)
    {
      var i := 3 * n;
      TrianglesStep(vertices, triangles, n, i);
      ghost var done := TrianglesPixels(vertices, triangles, n);
      ghost var tri := TriangleAt(vertices, triangles, i);
      ghost var mid := Screen();
      DrawTriangleAt(vertices, triangles, i, color);
      PaintAllAppend(start, width, height, done, tri, color, false);
      PaintJoin(Screen(), mid, start, width, height, done, tri, TrianglesPixels(vertices, triangles, n + 1), color);
    }

    /** One triangle of a triangulation, its corners listed at `triangles[i..i + 3]`. */
    method DrawTriangleAt(vertices: seq<Point>, triangles: seq<nat>, i: nat, color: string)
      requires Valid()
      requires i + 3 <= |triangles| && triangles[i] < |vertices| && triangles[i + 1] < |vertices| && triangles[i + 2] < |vertices|
      modifies this, pixels
      ensures Valid()
      ensures Screen() == PaintAll(old(Screen()), width, height, TriangleAt(vertices, triangles, i), color, false)
    {
      var p1, p2, p3 := vertices[triangles[i]], vertices[triangles[i + 1]], vertices[triangles[i + 2]];
      TriangleAtCorners(vertices, triangles, i, p1, p2, p3);
      FilledTriangle(p1, p2, p3, color);
    }

    /** `Frame`: the terminal text of the canvas, row by row, switching colour only when it changes. */
    method Frame() returns (sb: string)
      requires Valid()
      ensures sb == Flatten(FrameOf(Screen(), width / 2, height / 4))
    {
      var cols, rows := width / 2, height / 4;
      sb := "";
      var y := 0;
      while y < rows
        invariant 0 <= y <= rows
        invariant sb == FrameString(Screen(), cols, rows, y)
      {
        sb := FrameLine(sb, y);
        y := y + 1;
      }
      FrameStringTokens(Screen(), cols, rows, rows);
    }

    /** One pass of the frame loop: row `y`'s cells, a reset, and a line break unless it is the last row. */
    method FrameLine(sb: string, y: nat) returns (sb': string)
      requires Valid() && y < height / 4
      requires sb == FrameString(Screen(), width / 2, height / 4, y)
      ensures sb' == FrameString(Screen(), width / 2, height / 4, y + 1)
    {
      var cols, rows := width / 2, height / 4;
      FrameRow(width, height, y);
      var row := RowText(y * cols, cols);
      FrameStep(Screen(), cols, rows, y, sb, row);
      sb' := sb + row + ResetText;
      if y < rows - 1 {
        sb' := sb' + "\n";
      }
    }

    /** The cells of the row starting at cell `base`, each preceded by a colour switch when its colour
        differs from the one in force (the row starts with none). */
    method RowText(base: nat, cols: nat) returns (row: string)
      requires base + cols <= pixels.Length
      ensures row == RowString(Screen(), base, cols)
    {
      row := "";
      var currentColor := "";
      var x := 0;
      while x < cols
        invariant 0 <= x <= cols
        invariant row == RowString(Screen(), base, x)
        invariant currentColor == CurAfter(Screen(), base, x)
      {
        RowStringStep(Screen(), base, x);
        var text;
        text, currentColor := CellText(base + x, currentColor);
        row := row + text;
        x := x + 1;
      }
    }

    /** One cell of a row: the colour switch it needs after `cur`, then its glyph; and the colour
        then in force. */
    method CellText(idx: nat, cur: string) returns (text: string, code: string)
      requires idx < pixels.Length
      ensures text == Flatten(Switch(ColorAt(Screen(), idx), cur)) + [GlyphAt(Screen(), idx)]
      ensures code == ColorAt(Screen(), idx)
    {
      code := if idx in colors then colors[idx] else "";
      SwitchText(code, cur);
      text := "";
      if code != cur {
        text := ResetText;
        if code != "" {
          text := text + code;
        }
      }
      var glyph: char;
      if idx in chars {
        glyph := chars[idx];
      } else if pixels[idx] > 0 {
        glyph := (0x2800 + pixels[idx] as int) as char;
      } else {
        glyph := ' ';
      }
      text := text + [glyph];
    }
  }

  /** Painting `done` then `tri` is painting `done + tri`. */
  lemma PaintJoin(now: Cells, mid: Cells, start: Cells, width: nat, height: nat, done: seq<Pixel>, tri: seq<Pixel>,
                  all: seq<Pixel>, color: string)
    requires |start.pixels| == Size(width, height)
    requires mid == PaintAll(start, width, height, done, color, false) && now == PaintAll(mid, width, height, tri, color, false)
    requires all == done + tri
    requires PaintAll(start, width, height, done + tri, color, false) ==
      PaintAll(PaintAll(start, width, height, done, color, false), width, height, tri, color, false)
    ensures now == PaintAll(start, width, height, all, color, false)
  {
  }

  /** Row y of the frame loops is inside the buffer. */
  lemma FrameRow(width: nat, height: nat, y: nat)
    requires y < height / 4
    ensures y * (width / 2) + width / 2 <= Size(width, height)
  {
    var cols, rows := width / 2, height / 4;
    assert y * cols + cols == (y + 1) * cols;
    MulMono(cols, rows, y + 1);
  }

  function Min(a: int, b: int): int {
    if a < b then a else b
  }

  /** One round of the scanline loop moves the next span from the ones to draw to the ones drawn. */
  lemma FillStep(pts: seq<Pixel>, i: nat, drawn: seq<Span>, spans: seq<Span>)
    requires i + 1 < |pts| && drawn + SpansFrom(pts, i) == spans
    ensures (drawn + [NextSpan(pts, i)]) + SpansFrom(pts, RunEnd(pts, i, i)) == spans
  {
    SpansFromUnfold(pts, i);
    Assoc(drawn, [NextSpan(pts, i)], SpansFrom(pts, RunEnd(pts, i, i)));
  }

  /** Drawing one more segment of a polyline after the ones drawn. */
  lemma PolylineRound(start: Cells, mid: Cells, now: Cells, width: nat, height: nat, points: seq<Point>, i: nat, color: string)
    requires |start.pixels| == Size(width, height) && i + 1 < |points|
    requires mid == PaintAll(start, width, height, PolylinePixels(points[..i + 1]), color, false)
    requires now == PaintAll(mid, width, height, Segment(ToPixel(points[i]), ToPixel(points[i + 1])), color, false)
    ensures now == PaintAll(start, width, height, PolylinePixels(points[..i + 2]), color, false)
  {
    PaintAllAppend(start, width, height, PolylinePixels(points[..i + 1]), Segment(ToPixel(points[i]), ToPixel(points[i + 1])), color, false);
    PolylineSnoc(points, i);
  }

  /** Painting one more span after the ones drawn. */
  lemma FillRound(start: Cells, mid: Cells, now: Cells, width: nat, height: nat, drawn: seq<Span>, span: Span, color: string)
    requires |start.pixels| == Size(width, height)
    requires mid == PaintAll(start, width, height, FillPixels(drawn), color, false)
    requires now == PaintAll(mid, width, height, SpanPixels(span), color, false)
    ensures now == PaintAll(start, width, height, FillPixels(drawn + [span]), color, false)
  {
    PaintAllAppend(start, width, height, FillPixels(drawn), SpanPixels(span), color, false);
    FillPixelsSnoc(drawn, span);
  }

  /** When the scanline loop stops, every span has been drawn. */
  lemma FillDone(pts: seq<Pixel>, i: nat, drawn: seq<Span>, spans: seq<Span>)
    requires |pts| - 1 <= i <= |pts| && drawn + SpansFrom(pts, i) == spans
    ensures drawn == spans
  {
    assert SpansFrom(pts, i) == [];
    assert drawn + [] == drawn;
  }

  /** Painting one more pixel. */
  lemma PaintSnoc(c: Cells, width: nat, height: nat, done: seq<Pixel>, p: Pixel, color: string, splat: bool)
    requires |c.pixels| == Size(width, height)
    ensures PaintAll(c, width, height, done + [p], color, splat) ==
      Draw(PaintAll(c, width, height, done, color, splat), width, height, p, color, splat)
  {
    assert (done + [p])[..|done|] == done;
  }
}
