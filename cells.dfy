/**
 * The braille canvas of rendermaps/canvas.go as a value: one byte of dot bits
 * per terminal cell (a cell is 2 pixels wide and 4 tall), an override
 * character per cell and a colour escape per cell. Every drawing primitive of
 * the canvas is a function from one such value to the next; the `Canvas`
 * class in module Raster is proved to perform exactly these functions.
 */
module Cells {

  import opened Wrappers
  import opened Geometry
  import opened Lines

  datatype Cells = Cells(pixels: seq<bv8>, chars: map<int, char>, colors: map<int, string>)

  /** The number of cells `NewCanvas` allocates. */
  function Size(width: nat, height: nat): nat {
    (width / 2) * (height / 4)
  }

  /** `brailleMap`, indexed by the row and the column of a pixel inside its cell. */
  const BrailleMap: seq<seq<bv8>> := [[0x01, 0x08], [0x02, 0x10], [0x04, 0x20], [0x40, 0x80]]

  /** The dot bit `SetPixel` ORs in for pixel (x, y). */
  function Dot(x: int, y: int): bv8 {
    BrailleMap[y % 4][x % 2]
  }

  predicate SingleBit(b: bv8) {
    b != 0 && b & (b - 1) == 0
  }

  /** The eight dots of a cell are eight different single bits, and together they fill the byte. */
  lemma BrailleBitsDistinct()
    ensures forall r, c | 0 <= r < 4 && 0 <= c < 2 :: SingleBit(BrailleMap[r][c])
    ensures forall r, c, r', c' | 0 <= r < 4 && 0 <= c < 2 && 0 <= r' < 4 && 0 <= c' < 2 ::
      (BrailleMap[r][c] & BrailleMap[r'][c'] == 0) <==> (r != r' || c != c')
    ensures BrailleMap[0][0] | BrailleMap[1][0] | BrailleMap[2][0] | BrailleMap[3][0] |
      BrailleMap[0][1] | BrailleMap[1][1] | BrailleMap[2][1] | BrailleMap[3][1] == 0xFF
  {
  }

  /** Two pixels get the same dot exactly when they sit at the same place inside their cells. */
  lemma DotsOfCell(x: int, y: int, x': int, y': int)
    ensures SingleBit(Dot(x, y))
    ensures (Dot(x, y) & Dot(x', y') == 0) <==> (x % 2 != x' % 2 || y % 4 != y' % 4)
  {
    BrailleBitsDistinct();
  }

  /** `project` as written: on the canvas rectangle, the cell index of a pixel. */
  function ProjectAsWritten(width: nat, height: nat, x: int, y: int): (r: Option<int>)
    ensures r.Some? <==> 0 <= x < width && 0 <= y < height
  {
    if x < 0 || x >= width || y < 0 || y >= height then None else Some(x / 2 + (width / 2) * (y / 4))
  }

  /** With an odd width the last pixel column is projected one cell past the buffer. */
  lemma ProjectAsWrittenOverruns()
    ensures ProjectAsWritten(3, 4, 2, 0) == Some(1) && Size(3, 4) == 1
  {
  }

  /** With an odd width and more than one cell row, the last pixel column is projected into the
      first cell of the next row: (2, 0) and (0, 4) share a cell, while `Project` drops (2, 0). */
  lemma ProjectAsWrittenWraps()
    ensures ProjectAsWritten(3, 8, 2, 0) == Some(1) && ProjectAsWritten(3, 8, 0, 4) == Some(1)
    ensures Size(3, 8) == 2 && Project(3, 8, 2, 0) == None && Project(3, 8, 0, 4) == Some(1)
  {
  }

  /** `project` restricted to the pixels of whole cells, so that every index it returns is in the buffer. */
  function Project(width: nat, height: nat, x: int, y: int): (r: Option<nat>)
    ensures r.Some? ==> r.value < Size(width, height)
  {
    if x < 0 || x >= 2 * (width / 2) || y < 0 || y >= 4 * (height / 4) then None
    else
      assert y / 4 < height / 4 && x / 2 < width / 2;
      CellBound(x / 2, y / 4, width / 2, height / 4);
      Some(x / 2 + (width / 2) * (y / 4))
  }

  lemma CellBound(col: nat, row: nat, cols: nat, rows: nat)
    requires col < cols && row < rows
    ensures col + cols * row < cols * rows
  {
    assert cols * row + cols <= cols * rows by {
      assert cols * (row + 1) <= cols * rows;
    }
  }

  /** Whenever the width is even and the height a multiple of four, both projections agree. */
  lemma ProjectAgrees(width: nat, height: nat, x: int, y: int)
    requires width % 2 == 0 && height % 4 == 0
    ensures ProjectAsWritten(width, height, x, y) == (match Project(width, height, x, y)
      case None => None
      case Some(i) => Some(i as int))
  {
  }

  /** A pixel is projected iff it lies in the drawable rectangle, and two pixels share a cell iff
      they agree on `x / 2` and `y / 4`. */
  lemma ProjectCells(width: nat, height: nat, x: int, y: int, x': int, y': int)
    ensures Project(width, height, x, y).Some? <==> 0 <= x < 2 * (width / 2) && 0 <= y < 4 * (height / 4)
    ensures Project(width, height, x, y).Some? && Project(width, height, x', y').Some? ==>
      (Project(width, height, x, y) == Project(width, height, x', y') <==> x / 2 == x' / 2 && y / 4 == y' / 4)
  {
    if Project(width, height, x, y).Some? && Project(width, height, x', y').Some? {
      var cols := width / 2;
      if x / 2 + cols * (y / 4) == x' / 2 + cols * (y' / 4) {
        CellUnique(x / 2, y / 4, x' / 2, y' / 4, cols);
      }
    }
  }

  lemma CellUnique(col: nat, row: nat, col': nat, row': nat, cols: nat)
    requires col < cols && col' < cols && col + cols * row == col' + cols * row'
    ensures col == col' && row == row'
  {
    MulMono(cols, row, row' + 1);
    MulMono(cols, row', row + 1);
  }

  lemma MulMono(cols: nat, a: int, b: int)
    ensures a >= b ==> cols * a >= cols * b
  {
    if a >= b {
      assert cols * a == cols * b + cols * (a - b);
    }
  }

  /** `SetPixel`: OR in the pixel's dot, and colour the cell unless it already has a colour. */
  function Plot(c: Cells, width: nat, height: nat, x: int, y: int, color: string): (r: Cells)
    requires |c.pixels| == Size(width, height)
    ensures |r.pixels| == |c.pixels| && r.chars == c.chars
    ensures forall i | i in c.colors :: i in r.colors && r.colors[i] == c.colors[i]
  {
    match Project(width, height, x, y)
    case None => c
    case Some(i) =>
      Cells(c.pixels[i := c.pixels[i] | Dot(x, y)], c.chars, if i in c.colors then c.colors else c.colors[i := color])
  }

  /** `SetPixel` sets exactly the pixel's dot in exactly its cell, never clears a bit, keeps the
      first colour a cell was given, and does nothing off the canvas. */
  lemma PlotEffect(c: Cells, width: nat, height: nat, x: int, y: int, color: string)
    requires |c.pixels| == Size(width, height)
    ensures |Plot(c, width, height, x, y, color).pixels| == |c.pixels|
    ensures Plot(c, width, height, x, y, color).chars == c.chars
    ensures Project(width, height, x, y).None? ==> Plot(c, width, height, x, y, color) == c
    ensures forall k | 0 <= k < |c.pixels| ::
      Plot(c, width, height, x, y, color).pixels[k] & c.pixels[k] == c.pixels[k]
    ensures forall k | 0 <= k < |c.pixels| && Project(width, height, x, y) != Some(k) ::
      Plot(c, width, height, x, y, color).pixels[k] == c.pixels[k]
    ensures forall k | k in c.colors && !(Project(width, height, x, y).Some? && Project(width, height, x, y).value == k) ::
      k in Plot(c, width, height, x, y, color).colors && Plot(c, width, height, x, y, color).colors[k] == c.colors[k]
    ensures Project(width, height, x, y).Some? ==>
      var i := Project(width, height, x, y).value;
      Plot(c, width, height, x, y, color).pixels[i] == c.pixels[i] | Dot(x, y) &&
      Plot(c, width, height, x, y, color).pixels[i] & Dot(x, y) == Dot(x, y) &&
      i in Plot(c, width, height, x, y, color).colors &&
      Plot(c, width, height, x, y, color).colors[i] == (if i in c.colors then c.colors[i] else color)
  {
    match Project(width, height, x, y)
    case None =>
    case Some(i) =>
      PlotAt(c, width, height, x, y, color, i);
      OrBits(c.pixels[i], Dot(x, y));
  }

  /** Or-ing in a dot keeps the old bits and sets the dot's. */
  lemma OrBits(a: bv8, d: bv8)
    ensures (a | d) & a == a && (a | d) & d == d
  {
  }

  /** Plotting a pixel of cell `i` ors its dot into the cell and colours the cell if it has no colour yet. */
  lemma PlotAt(c: Cells, width: nat, height: nat, x: int, y: int, color: string, i: nat)
    requires |c.pixels| == Size(width, height) && Project(width, height, x, y) == Some(i)
    ensures i < |c.pixels|
    ensures Plot(c, width, height, x, y, color) ==
      Cells(c.pixels[i := c.pixels[i] | Dot(x, y)], c.chars, if i in c.colors then c.colors else c.colors[i := color])
  {
  }

  /** Plotting keeps every bit of cell `k` and, when the pixel lies in cell `k`, sets its dot. */
  lemma PlotBits(c: Cells, width: nat, height: nat, x: int, y: int, color: string, k: int)
    requires |c.pixels| == Size(width, height) && 0 <= k < |c.pixels|
    ensures Plot(c, width, height, x, y, color).pixels[k] & c.pixels[k] == c.pixels[k]
    ensures Project(width, height, x, y) == Some(k) ==> Plot(c, width, height, x, y, color).pixels[k] & Dot(x, y) == Dot(x, y)
  {
    match Project(width, height, x, y)
    case None =>
    case Some(i) =>
      PlotAt(c, width, height, x, y, color, i);
      OrBits(c.pixels[i], Dot(x, y));
  }

  /** Plotting the same two pixels in either order sets the same bits; only the colours can differ. */
  lemma PlotBitsCommute(c: Cells, width: nat, height: nat, x: int, y: int, a: string, x': int, y': int, b: string)
    requires |c.pixels| == Size(width, height)
    ensures Plot(Plot(c, width, height, x, y, a), width, height, x', y', b).pixels ==
            Plot(Plot(c, width, height, x', y', b), width, height, x, y, a).pixels
  {
  }

  /** The colour of a blank cell is the colour of the first pixel plotted into it, whatever comes later. */
  lemma FirstColourWins(c: Cells, width: nat, height: nat, x: int, y: int, a: string, x': int, y': int, b: string)
    requires |c.pixels| == Size(width, height)
    requires Project(width, height, x, y).Some? && Project(width, height, x, y) == Project(width, height, x', y')
    requires Project(width, height, x, y).value !in c.colors
    ensures Plot(Plot(c, width, height, x, y, a), width, height, x', y', b).colors[Project(width, height, x, y).value] == a
  {
  }

  /** `setPixelSplat` and each step of `Text`: overwrite the cell's character and colour. */
  function Put(c: Cells, width: nat, height: nat, x: int, y: int, ch: char, color: string): (r: Cells)
    ensures r.pixels == c.pixels
    ensures Project(width, height, x, y).None? ==> r == c
  {
    match Project(width, height, x, y)
    case None => c
    case Some(i) => Cells(c.pixels, c.chars[i := ch], c.colors[i := color])
  }

  /** The large dot `setPixelSplat` writes. */
  const SplatChar: char := '\U{2B24}'

  /** One pixel of a line, painted as `line` does with or without its splat flag. */
  function Draw(c: Cells, width: nat, height: nat, p: Pixel, color: string, splat: bool): (r: Cells)
    requires |c.pixels| == Size(width, height)
    ensures |r.pixels| == |c.pixels|
  {
    if splat then Put(c, width, height, p.x, p.y, SplatChar, color) else Plot(c, width, height, p.x, p.y, color)
  }

  /** A splat replaces whatever colour and character the cell had, and leaves the dot bits alone. */
  lemma SplatOverwrites(c: Cells, width: nat, height: nat, p: Pixel, color: string)
    requires |c.pixels| == Size(width, height) && Project(width, height, p.x, p.y).Some?
    ensures var r := Draw(c, width, height, p, color, true);
      var i := Project(width, height, p.x, p.y).value;
      r.pixels == c.pixels && r.chars[i] == SplatChar && r.colors[i] == color &&
      (forall k | k in c.chars && k != i :: k in r.chars && r.chars[k] == c.chars[k])
  {
  }

  /** Painting the pixels of `pts` one after the other. */
  function PaintAll(c: Cells, width: nat, height: nat, pts: seq<Pixel>, color: string, splat: bool): (r: Cells)
    requires |c.pixels| == Size(width, height)
    ensures |r.pixels| == |c.pixels|
    decreases |pts|
  {
    if pts == [] then c
    else Draw(PaintAll(c, width, height, pts[..|pts| - 1], color, splat), width, height, pts[|pts| - 1], color, splat)
  }

  lemma {:induction false} PaintAllAppend(c: Cells, width: nat, height: nat, a: seq<Pixel>, b: seq<Pixel>, color: string, splat: bool)
    requires |c.pixels| == Size(width, height)
    ensures PaintAll(c, width, height, a + b, color, splat) ==
            PaintAll(PaintAll(c, width, height, a, color, splat), width, height, b, color, splat)
    decreases |b|
  {
    if b == [] {
      assert a + b == a;
    } else {
      var b' := b[..|b| - 1];
      PaintAllAppend(c, width, height, a, b', color, splat);
      assert (a + b)[..|a + b| - 1] == a + b';
    }
  }

  /** A plotted bit survives any further plotting. */
  lemma {:induction false} PlotsOnlyAdd(c: Cells, width: nat, height: nat, pts: seq<Pixel>, color: string, k: int)
    requires |c.pixels| == Size(width, height) && 0 <= k < |c.pixels|
    ensures PaintAll(c, width, height, pts, color, false).pixels[k] & c.pixels[k] == c.pixels[k]
    decreases |pts|
  {
    if pts != [] {
      var before := PaintAll(c, width, height, pts[..|pts| - 1], color, false);
      PlotsOnlyAdd(c, width, height, pts[..|pts| - 1], color, k);
      PlotBits(before, width, height, pts[|pts| - 1].x, pts[|pts| - 1].y, color, k);
      OrKeeps(c.pixels[k], before.pixels[k], PaintAll(c, width, height, pts, color, false).pixels[k]);
    }
  }

  lemma OrKeeps(a: bv8, b: bv8, r: bv8)
    requires b & a == a && r & b == b
    ensures r & a == a
  {
    assert r & a == r & (b & a) == (r & b) & a;
  }

  /** After plotting a sequence of pixels, the dot of every one of them that lies on the canvas is set. */
  lemma PlottedDotsAreSet(c: Cells, width: nat, height: nat, pts: seq<Pixel>, color: string, j: int)
    requires |c.pixels| == Size(width, height) && 0 <= j < |pts|
    requires Project(width, height, pts[j].x, pts[j].y).Some?
    ensures var i := Project(width, height, pts[j].x, pts[j].y).value;
      PaintAll(c, width, height, pts, color, false).pixels[i] & Dot(pts[j].x, pts[j].y) == Dot(pts[j].x, pts[j].y)
  {
    var i := Project(width, height, pts[j].x, pts[j].y).value;
    DotSetWhenPlotted(c, width, height, pts, color, j);
    StaysSetToEnd(c, width, height, pts, color, j + 1, i, Dot(pts[j].x, pts[j].y));
  }

  /** Plotting pixel `j` sets its dot. */
  lemma DotSetWhenPlotted(c: Cells, width: nat, height: nat, pts: seq<Pixel>, color: string, j: nat)
    requires |c.pixels| == Size(width, height) && j < |pts|
    requires Project(width, height, pts[j].x, pts[j].y).Some?
    ensures var i := Project(width, height, pts[j].x, pts[j].y).value;
      PaintAll(c, width, height, pts[..j + 1], color, false).pixels[i] & Dot(pts[j].x, pts[j].y) == Dot(pts[j].x, pts[j].y)
  {
    var i := Project(width, height, pts[j].x, pts[j].y).value;
    PaintPrefixSnoc(c, width, height, pts, j, color);
    PlotBits(PaintAll(c, width, height, pts[..j], color, false), width, height, pts[j].x, pts[j].y, color, i);
  }

  /** A dot set after the first `k0` pixels is still set after all of them. */
  lemma {:induction false} StaysSetToEnd(c: Cells, width: nat, height: nat, pts: seq<Pixel>, color: string, k0: nat, i: nat, d: bv8)
    requires |c.pixels| == Size(width, height) && k0 <= |pts| && i < |c.pixels|
    requires PaintAll(c, width, height, pts[..k0], color, false).pixels[i] & d == d
    ensures PaintAll(c, width, height, pts, color, false).pixels[i] & d == d
    decreases |pts| - k0
  {
    if k0 < |pts| {
      DotStaysSet(c, width, height, pts, color, k0, i, d);
      StaysSetToEnd(c, width, height, pts, color, k0 + 1, i, d);
    } else {
      assert pts[..k0] == pts;
    }
  }

  /** Painting the first `k + 1` pixels plots pixel `k` over the first `k`. */
  lemma PaintPrefixSnoc(c: Cells, width: nat, height: nat, pts: seq<Pixel>, k: nat, color: string)
    requires |c.pixels| == Size(width, height) && k < |pts|
    ensures PaintAll(c, width, height, pts[..k + 1], color, false) ==
      Plot(PaintAll(c, width, height, pts[..k], color, false), width, height, pts[k].x, pts[k].y, color)
  {
    assert pts[..k + 1][..k] == pts[..k];
  }

  /** A dot once set stays set when one more pixel is plotted. */
  lemma DotStaysSet(c: Cells, width: nat, height: nat, pts: seq<Pixel>, color: string, k: nat, i: nat, d: bv8)
    requires |c.pixels| == Size(width, height) && k < |pts| && i < |c.pixels|
    requires PaintAll(c, width, height, pts[..k], color, false).pixels[i] & d == d
    ensures PaintAll(c, width, height, pts[..k + 1], color, false).pixels[i] & d == d
  {
    var before := PaintAll(c, width, height, pts[..k], color, false);
    PaintPrefixSnoc(c, width, height, pts, k, color);
    PlotBits(before, width, height, pts[k].x, pts[k].y, color, i);
    OrKeeps(d, before.pixels[i], Plot(before, width, height, pts[k].x, pts[k].y, color).pixels[i]);
  }

  /** The pixels `Polyline` draws: one segment per consecutive pair of points, and none for fewer than two. */
  function PolylinePixels(pts: seq<Point>): seq<Pixel>
    decreases |pts|
  {
    if |pts| < 2 then []
    else PolylinePixels(pts[..|pts| - 1]) + Segment(ToPixel(pts[|pts| - 2]), ToPixel(pts[|pts| - 1]))
  }

  /** One more point adds the segment from the previous last point to it. */
  lemma PolylineSnoc(pts: seq<Point>, i: nat)
    requires i + 1 < |pts|
    ensures PolylinePixels(pts[..i + 2]) == PolylinePixels(pts[..i + 1]) + Segment(ToPixel(pts[i]), ToPixel(pts[i + 1]))
  {
    assert pts[..i + 2][..i + 1] == pts[..i + 1];
  }

  /** The segments of a polyline, listed independently of the drawing order. */
  function Segments(pts: seq<Point>): (r: seq<seq<Pixel>>)
    ensures |r| == if |pts| < 2 then 0 else |pts| - 1
  {
    if |pts| < 2 then [] else seq(|pts| - 1, i requires 0 <= i < |pts| - 1 => Segment(ToPixel(pts[i]), ToPixel(pts[i + 1])))
  }

  function Concat(ss: seq<seq<Pixel>>): seq<Pixel>
    decreases |ss|
  {
    if ss == [] then [] else Concat(ss[..|ss| - 1]) + ss[|ss| - 1]
  }

  /** `Polyline` paints the `len(points)-1` segments between consecutive points, in order. */
  lemma {:induction false} PolylineIsSegments(pts: seq<Point>)
    ensures PolylinePixels(pts) == Concat(Segments(pts))
    decreases |pts|
  {
    if |pts| >= 2 {
      PolylineIsSegments(pts[..|pts| - 1]);
      PolylineSegmentsStep(pts);
    }
  }

  lemma PolylineSegmentsStep(pts: seq<Point>)
    requires |pts| >= 2
    requires PolylinePixels(pts[..|pts| - 1]) == Concat(Segments(pts[..|pts| - 1]))
    ensures PolylinePixels(pts) == Concat(Segments(pts))
  {
    var front := pts[..|pts| - 1];
    var ss := Segments(pts);
    SegmentsFront(pts);
    assert ss[|ss| - 1] == Segment(ToPixel(pts[|pts| - 2]), ToPixel(pts[|pts| - 1]));
    assert Concat(ss) == Concat(ss[..|ss| - 1]) + ss[|ss| - 1];
  }

  /** Dropping the last point drops the last segment. */
  lemma SegmentsFront(pts: seq<Point>)
    requires |pts| >= 2
    ensures Segments(pts)[..|pts| - 2] == Segments(pts[..|pts| - 1])
  {
    var ss, front := Segments(pts), pts[..|pts| - 1];
    if |front| >= 2 {
      forall k | 0 <= k < |pts| - 2
        ensures ss[k] == Segments(front)[k]
      {
        assert front[k] == pts[k] && front[k + 1] == pts[k + 1];
      }
    }
  }

  /** The UTF-8 length of a character: what Go's `range` over a string advances by. */
  function Utf8Len(ch: char): nat {
    if ch as int < 0x80 then 1 else if ch as int < 0x800 then 2 else if ch as int < 0x10000 then 3 else 4
  }

  /** The byte length of a string in UTF-8, i.e. the `range` index of the character after it. */
  function ByteLen(s: string): nat
    decreases |s|
  {
    if s == [] then 0 else ByteLen(s[..|s| - 1]) + Utf8Len(s[|s| - 1])
  }

  predicate IsAscii(s: string) {
    forall k | 0 <= k < |s| :: s[k] as int < 0x80
  }

  lemma {:induction false} AsciiByteLen(s: string)
    requires IsAscii(s)
    ensures ByteLen(s) == |s|
    decreases |s|
  {
    if s != [] {
      assert IsAscii(s[..|s| - 1]);
      AsciiByteLen(s[..|s| - 1]);
    }
  }

  /** The column `Text` starts writing at: centred by the text's display width, rounded to whole cells. */
  function TextStart(x: int, textWidth: nat): int {
    x - (textWidth / 2) * 2
  }

  /** The first `n` characters of `Text`: character `k` goes to the pixel column two per byte offset
      to the right of the start, overwriting character and colour. */
  function TextUpTo(c: Cells, width: nat, height: nat, text: string, textWidth: nat, x: int, y: int, color: string, n: nat): Cells
    requires n <= |text|
    decreases n
  {
    if n == 0 then c
    else
      var k := n - 1;
      Put(TextUpTo(c, width, height, text, textWidth, x, y, color, k), width, height,
          TextStart(x, textWidth) + ByteLen(text[..k]) * 2, y, text[k], color)
  }

  /** `Text` as a whole; it never changes the dot bits. */
  function TextAt(c: Cells, width: nat, height: nat, text: string, textWidth: nat, x: int, y: int, color: string): (r: Cells)
    ensures r.pixels == c.pixels
  {
    TextKeepsPixels(c, width, height, text, textWidth, x, y, color, |text|);
    TextUpTo(c, width, height, text, textWidth, x, y, color, |text|)
  }

  /** Text never touches the dot bits. */
  lemma {:induction false} TextKeepsPixels(c: Cells, width: nat, height: nat, text: string, textWidth: nat, x: int, y: int, color: string, n: nat)
    requires n <= |text|
    ensures TextUpTo(c, width, height, text, textWidth, x, y, color, n).pixels == c.pixels
    decreases n
  {
    if n > 0 {
      TextKeepsPixels(c, width, height, text, textWidth, x, y, color, n - 1);
    }
  }

  /** For ASCII text whose cells all lie on the canvas, character `k` ends up in the cell of column
      `TextStart + 2k`, one cell per character, in the given colour. */
  lemma TextPlacement(c: Cells, width: nat, height: nat, text: string, textWidth: nat, x: int, y: int, color: string, k: nat)
    requires IsAscii(text) && k < |text|
    requires forall j | 0 <= j < |text| :: Project(width, height, TextStart(x, textWidth) + 2 * j, y).Some?
    ensures var i := Project(width, height, TextStart(x, textWidth) + 2 * k, y).value;
      var r := TextAt(c, width, height, text, textWidth, x, y, color);
      i in r.chars && r.chars[i] == text[k] && i in r.colors && r.colors[i] == color
  {
    TextCell(c, width, height, text, textWidth, x, y, color, k, |text|);
  }

  lemma {:induction false} TextCell(c: Cells, width: nat, height: nat, text: string, textWidth: nat, x: int, y: int, color: string, k: nat, n: nat)
    requires IsAscii(text) && k < n <= |text|
    requires forall j | 0 <= j < |text| :: Project(width, height, TextStart(x, textWidth) + 2 * j, y).Some?
    ensures var i := Project(width, height, TextStart(x, textWidth) + 2 * k, y).value;
      var r := TextUpTo(c, width, height, text, textWidth, x, y, color, n);
      i in r.chars && r.chars[i] == text[k] && i in r.colors && r.colors[i] == color
    decreases n
  {
    var x0 := TextStart(x, textWidth);
    var last := n - 1;
    TextUnfold(c, width, height, text, textWidth, x, y, color, n);
    var before := TextUpTo(c, width, height, text, textWidth, x, y, color, last);
    PutAt(before, width, height, x0 + 2 * last, y, text[last], color);
    if k < last {
      TextCell(c, width, height, text, textWidth, x, y, color, k, last);
      var i := Project(width, height, x0 + 2 * k, y).value;
      var i' := Project(width, height, x0 + 2 * last, y).value;
      ProjectCells(width, height, x0 + 2 * k, y, x0 + 2 * last, y);
      assert (x0 + 2 * k) / 2 == x0 / 2 + k && (x0 + 2 * last) / 2 == x0 / 2 + last;
      assert i != i';
    }
  }

  /** For ASCII text the byte offset of character `n - 1` is `n - 1`. */
  lemma TextUnfold(c: Cells, width: nat, height: nat, text: string, textWidth: nat, x: int, y: int, color: string, n: nat)
    requires IsAscii(text) && 0 < n <= |text|
    ensures TextUpTo(c, width, height, text, textWidth, x, y, color, n) ==
      Put(TextUpTo(c, width, height, text, textWidth, x, y, color, n - 1), width, height,
          TextStart(x, textWidth) + 2 * (n - 1), y, text[n - 1], color)
  {
    assert IsAscii(text[..n - 1]);
    AsciiByteLen(text[..n - 1]);
  }

  /** `Put` on a cell of the canvas sets that cell's character and colour. */
  lemma PutAt(c: Cells, width: nat, height: nat, x: int, y: int, ch: char, color: string)
    requires Project(width, height, x, y).Some?
    ensures var i := Project(width, height, x, y).value; var r := Put(c, width, height, x, y, ch, color);
      r.chars == c.chars[i := ch] && r.colors == c.colors[i := color]
  {
  }
}
