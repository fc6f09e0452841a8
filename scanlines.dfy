/**
 * The edge-trace and span fill of `Canvas.filledTriangle`
 * (rendermaps/canvas.go): the three Bresenham edges are concatenated, sorted
 * by row and then column, and each run of points on one row is filled from
 * its first to its last column. The outer loop runs while `i < len-1`, so a
 * row holding only the very last point is skipped; for a triangle that never
 * happens, because the lowest vertex is traced twice.
 */
module Scanlines {

  import opened Geometry
  import opened Lines
  import opened Seqs

  /** The comparator `filledTriangle` hands to `sort.Slice`: by y, then by x. */
  predicate Less(a: Pixel, b: Pixel) {
    a.y < b.y || (a.y == b.y && a.x < b.x)
  }

  predicate LessEq(a: Pixel, b: Pixel) {
    Less(a, b) || a == b
  }

  predicate SortedByRow(s: seq<Pixel>) {
    forall i, j | 0 <= i < j < |s| :: LessEq(s[i], s[j])
  }

  function Insert(p: Pixel, s: seq<Pixel>): seq<Pixel>
    decreases |s|
  {
    if s == [] then [p] else if LessEq(p, s[0]) then [p] + s else [s[0]] + Insert(p, s[1..])
  }

  /** A reference sort for the comparator. */
  function SortByRow(s: seq<Pixel>): seq<Pixel>
    decreases |s|
  {
    if s == [] then [] else Insert(s[0], SortByRow(s[1..]))
  }

  lemma {:induction false} InsertPerm(p: Pixel, s: seq<Pixel>)
    ensures multiset(Insert(p, s)) == multiset(s) + multiset{p}
    decreases |s|
  {
    if s != [] && !LessEq(p, s[0]) {
      InsertPerm(p, s[1..]);
      assert s == [s[0]] + s[1..];
    }
  }

  /** Points the sort puts first: `p` precedes every element of `s`. */
  predicate Below(p: Pixel, s: seq<Pixel>) {
    forall k | 0 <= k < |s| :: LessEq(p, s[k])
  }

  lemma {:induction false} InsertBelow(q: Pixel, p: Pixel, s: seq<Pixel>)
    requires LessEq(q, p) && Below(q, s)
    ensures Below(q, Insert(p, s))
    decreases |s|
  {
    if s != [] && !LessEq(p, s[0]) {
      InsertBelow(q, p, s[1..]);
    }
  }

  lemma {:induction false} InsertSorted(p: Pixel, s: seq<Pixel>)
    requires SortedByRow(s)
    ensures SortedByRow(Insert(p, s))
    decreases |s|
  {
    if s != [] && !LessEq(p, s[0]) {
      InsertSorted(p, s[1..]);
      InsertBelow(s[0], p, s[1..]);
      var r := Insert(p, s[1..]);
      assert Insert(p, s) == [s[0]] + r;
    } else if s != [] {
      assert Below(p, s);
    }
  }

  /** The reference sort yields the points in row order, each exactly as often as it was given. */
  lemma {:induction false} SortByRowSpec(s: seq<Pixel>)
    ensures SortedByRow(SortByRow(s)) && multiset(SortByRow(s)) == multiset(s)
    decreases |s|
  {
    if s != [] {
      SortByRowSpec(s[1..]);
      InsertSorted(s[0], SortByRow(s[1..]));
      InsertPerm(s[0], SortByRow(s[1..]));
      assert s == [s[0]] + s[1..];
    }
  }

  /** The comparator is total on pixels, so any sort that orders the points yields this one
      sequence: it does not matter that `sort.Slice` is not stable. */
  lemma {:induction false} SortedUnique(a: seq<Pixel>, b: seq<Pixel>)
    requires SortedByRow(a) && SortedByRow(b) && multiset(a) == multiset(b)
    ensures a == b
    decreases |a|
  {
    if a != [] {
      HeadsAgree(a, b);
      Tail(a);
      Tail(b);
      SortedUnique(a[1..], b[1..]);
    }
  }

  lemma HeadsAgree(a: seq<Pixel>, b: seq<Pixel>)
    requires SortedByRow(a) && SortedByRow(b) && multiset(a) == multiset(b) && a != []
    ensures b != [] && a[0] == b[0]
  {
    assert a[0] in multiset(b);
    assert b != [];
    assert b[0] in multiset(a);
    var i :| 0 <= i < |b| && b[i] == a[0];
    var j :| 0 <= j < |a| && a[j] == b[0];
    assert LessEq(b[0], b[i]) || i == 0;
    assert LessEq(a[0], a[j]) || j == 0;
  }

  lemma Tail(a: seq<Pixel>)
    requires a != []
    ensures multiset(a[1..]) == multiset(a) - multiset{a[0]}
    ensures SortedByRow(a) ==> SortedByRow(a[1..])
  {
    assert a == [a[0]] + a[1..];
  }

  /** The index after the run of points on row `pts[i].y` that starts at `i`, scanned from `j`. */
  function RunEnd(pts: seq<Pixel>, i: nat, j: nat): (r: nat)
    requires i <= j <= |pts| && i < |pts|
    ensures j <= r <= |pts| && (r == |pts| || pts[r].y != pts[i].y)
    ensures forall k | j <= k < r :: pts[k].y == pts[i].y
    decreases |pts| - j
  {
    if j < |pts| && pts[j].y == pts[i].y then RunEnd(pts, i, j + 1) else j
  }

  /** A horizontal run of pixels: row `y`, columns `from` to `to`. */
  datatype Span = Span(y: int, from: int, to: int)

  /** The span the fill loop draws for the run that starts at `i`: from its first to its last point. */
  function NextSpan(pts: seq<Pixel>, i: nat): Span
    requires i < |pts|
  {
    Span(pts[i].y, pts[i].x, pts[RunEnd(pts, i, i) - 1].x)
  }

  /** The spans the fill loop draws from index `i` on. */
  function SpansFrom(pts: seq<Pixel>, i: nat): (r: seq<Span>)
    requires i <= |pts|
    ensures |r| <= |pts| - i
    decreases |pts| - i
  {
    if i + 1 >= |pts| then []
    else [NextSpan(pts, i)] + SpansFrom(pts, RunEnd(pts, i, i))
  }

  /** Index `k` holds the last point, alone on its row. */
  predicate LastAlone(pts: seq<Pixel>, k: int)
    requires 0 <= k < |pts|
  {
    k == |pts| - 1 && (k == 0 || pts[k - 1].y != pts[k].y)
  }

  predicate RowStart(pts: seq<Pixel>, i: int)
    requires 0 <= i <= |pts|
  {
    i == 0 || i == |pts| || pts[i - 1].y != pts[i].y
  }

  /** Step `m` of the fill finds row `y` in the sorted points. */
  predicate HasRow(spans: seq<Span>, y: int) {
    exists m | 0 <= m < |spans| :: spans[m].y == y
  }

  /** Past the run that starts at `i` every point lies on a later row, and the next run starts a row. */
  lemma RunFacts(pts: seq<Pixel>, i: nat)
    requires SortedByRow(pts) && i < |pts|
    ensures forall k | RunEnd(pts, i, i) <= k < |pts| :: pts[k].y > pts[i].y
    ensures RowStart(pts, RunEnd(pts, i, i))
  {
    var j := RunEnd(pts, i, i);
    forall k | j <= k < |pts|
      ensures pts[k].y > pts[i].y
    {
      assert LessEq(pts[j], pts[k]) || k == j;
      assert LessEq(pts[i], pts[j]);
    }
  }

  /** Before a row start every point lies on an earlier row. */
  lemma BeforeRow(pts: seq<Pixel>, i: nat)
    requires SortedByRow(pts) && i < |pts| && RowStart(pts, i)
    ensures forall k | 0 <= k < i :: pts[k].y < pts[i].y
  {
    forall k | 0 <= k < i
      ensures pts[k].y < pts[i].y
    {
      assert LessEq(pts[k], pts[i - 1]) || k == i - 1;
      assert LessEq(pts[i - 1], pts[i]);
    }
  }

  /** The spans drawn from index `i` on lie on the row of `pts[i]` or later rows. */
  lemma {:induction false} SpansBelow(pts: seq<Pixel>, i: nat)
    requires SortedByRow(pts) && i < |pts|
    ensures forall m | 0 <= m < |SpansFrom(pts, i)| :: SpansFrom(pts, i)[m].y >= pts[i].y
    decreases |pts| - i
  {
    if i + 1 < |pts| {
      var j := RunEnd(pts, i, i);
      RunFacts(pts, i);
      if j < |pts| {
        SpansBelow(pts, j);
      }
    }
  }

  /** In row order the fill draws a span for the row of every point except a last point that is
      alone on its row. */
  lemma {:induction false} SpansCoverRows(pts: seq<Pixel>, i: nat)
    requires SortedByRow(pts) && i <= |pts| && RowStart(pts, i)
    ensures forall k | i <= k < |pts| :: HasRow(SpansFrom(pts, i), pts[k].y) <==> !LastAlone(pts, k)
    decreases |pts| - i
  {
    var spans := SpansFrom(pts, i);
    if i + 1 < |pts| {
      var j := RunEnd(pts, i, i);
      var rest := SpansFrom(pts, j);
      assert spans == [Span(pts[i].y, pts[i].x, pts[j - 1].x)] + rest;
      RunFacts(pts, i);
      SpansCoverRows(pts, j);
      forall k | i <= k < |pts|
        ensures HasRow(spans, pts[k].y) <==> !LastAlone(pts, k)
      {
        if k < j {
          assert spans[0].y == pts[k].y;
          assert !LastAlone(pts, k) by {
            if k == |pts| - 1 && k > i {
              assert pts[k - 1].y == pts[i].y;
            }
          }
        } else {
          SpansBelow(pts, j);
          if HasRow(spans, pts[k].y) {
            var m :| 0 <= m < |spans| && spans[m].y == pts[k].y;
            assert m > 0;
            assert rest[m - 1].y == pts[k].y;
          }
          if HasRow(rest, pts[k].y) {
            var m :| 0 <= m < |rest| && rest[m].y == pts[k].y;
            assert spans[m + 1] == rest[m];
          }
        }
      }
    } else if i < |pts| {
      assert LastAlone(pts, i);
    }
  }

  /** Each span reaches from the leftmost to the rightmost point of its row. */
  lemma {:induction false} SpansSpanRows(pts: seq<Pixel>, i: nat)
    requires SortedByRow(pts) && i <= |pts| && RowStart(pts, i)
    ensures forall m, k | 0 <= m < |SpansFrom(pts, i)| && 0 <= k < |pts| && pts[k].y == SpansFrom(pts, i)[m].y ::
      SpansFrom(pts, i)[m].from <= pts[k].x <= SpansFrom(pts, i)[m].to
    decreases |pts| - i
  {
    var spans := SpansFrom(pts, i);
    if i + 1 < |pts| {
      var j := RunEnd(pts, i, i);
      var rest := SpansFrom(pts, j);
      assert spans == [Span(pts[i].y, pts[i].x, pts[j - 1].x)] + rest;
      RunFacts(pts, i);
      BeforeRow(pts, i);
      SpansSpanRows(pts, j);
      forall m, k | 0 <= m < |spans| && 0 <= k < |pts| && pts[k].y == spans[m].y
        ensures spans[m].from <= pts[k].x <= spans[m].to
      {
        if m == 0 {
          assert i <= k < j;
          assert LessEq(pts[i], pts[k]) || k == i;
          assert LessEq(pts[k], pts[j - 1]) || k == j - 1;
        } else {
          assert spans[m] == rest[m - 1];
        }
      }
    }
  }

  /** The pixels of one span, left to right. */
  function SpanPixels(s: Span): seq<Pixel> {
    if s.to < s.from then [] else seq(s.to - s.from + 1, k => Pixel(s.from + k, s.y))
  }

  function FillPixels(spans: seq<Span>): seq<Pixel>
    decreases |spans|
  {
    if spans == [] then [] else FillPixels(spans[..|spans| - 1]) + SpanPixels(spans[|spans| - 1])
  }

  /** Appending one span appends its pixels. */
  lemma FillPixelsSnoc(spans: seq<Span>, span: Span)
    ensures FillPixels(spans + [span]) == FillPixels(spans) + SpanPixels(span)
  {
    var all := spans + [span];
    assert all[..|all| - 1] == spans;
    assert all[|all| - 1] == span;
  }

  lemma {:induction false} FillPixelsAppend(a: seq<Span>, b: seq<Span>)
    ensures FillPixels(a + b) == FillPixels(a) + FillPixels(b)
    decreases |b|
  {
    if b == [] {
      assert a + b == a;
    } else {
      var init, last := b[..|b| - 1], b[|b| - 1];
      FillPixelsAppend(a, init);
      assert b == init + [last];
      FillPixelsAppendStep(a, init, last);
    }
  }

  lemma FillPixelsAppendStep(a: seq<Span>, init: seq<Span>, last: Span)
    requires FillPixels(a + init) == FillPixels(a) + FillPixels(init)
    ensures FillPixels(a + (init + [last])) == FillPixels(a) + FillPixels(init + [last])
  {
    Assoc(a, init, [last]);
    FillPixelsSnoc(a + init, last);
    FillPixelsSnoc(init, last);
    Assoc(FillPixels(a), FillPixels(init), SpanPixels(last));
  }

  /** The first span from a row start, and the spans after its run. */
  lemma SpansFromUnfold(pts: seq<Pixel>, i: nat)
    requires i + 1 < |pts|
    ensures SpansFrom(pts, i) == [NextSpan(pts, i)] + SpansFrom(pts, RunEnd(pts, i, i))
  {
  }

  /** Every pixel of every span is painted. */
  lemma {:induction false} InFill(spans: seq<Span>, m: nat, x: int)
    requires m < |spans| && spans[m].from <= x <= spans[m].to
    ensures Pixel(x, spans[m].y) in FillPixels(spans)
    decreases |spans|
  {
    var last := |spans| - 1;
    if m == last {
      assert SpanPixels(spans[m])[x - spans[m].from] == Pixel(x, spans[m].y);
    } else {
      InFill(spans[..last], m, x);
    }
  }

  /** The three edges `filledTriangle` traces, in the order it concatenates them. */
  function Edges(a: Pixel, b: Pixel, c: Pixel): seq<Pixel> {
    Segment(a, b) + Segment(b, c) + Segment(c, a)
  }

  /** What `filledTriangle` paints: the whole outline, since the `len-1` guard never skips a row
      of a triangle. */
  function TrianglePixels(a: Pixel, b: Pixel, c: Pixel): (r: seq<Pixel>)
    ensures forall p | p in Edges(a, b, c) :: p in r
  {
    FillCoversAllEdges(a, b, c);
    FillPixels(SpansFrom(SortByRow(Edges(a, b, c)), 0))
  }

  /** Along a segment no point leaves the rows between its end points. */
  lemma SegmentRows(p: Pixel, q: Pixel, k: int)
    requires 0 <= k < |Segment(p, q)|
    ensures Segment(p, q)[k].y <= Max(p.y, q.y)
  {
    SegmentShape(p, q);
    StepsStayBelow(Segment(p, q), q, k);
  }

  lemma {:induction false} StepsStayBelow(r: seq<Pixel>, q: Pixel, k: nat)
    requires k < |r|
    requires forall i | 0 <= i < |r| - 1 :: StepOk(r, i, q)
    ensures r[k].y <= Max(r[0].y, q.y)
    ensures r[0].y <= q.y ==> r[k].y <= q.y
    ensures q.y <= r[0].y ==> r[k].y <= r[0].y
  {
    if k > 0 {
      StepsStayBelow(r, q, k - 1);
      assert StepOk(r, k - 1, q);
    }
  }

  /** Every point of the three edges lies on or above the row of the lowest vertex. */
  lemma EdgeRows(a: Pixel, b: Pixel, c: Pixel, k: int)
    requires 0 <= k < |Edges(a, b, c)|
    ensures Edges(a, b, c)[k].y <= Max(a.y, Max(b.y, c.y))
  {
    var e1, e2, e3 := Segment(a, b), Segment(b, c), Segment(c, a);
    if k < |e1| {
      SegmentRows(a, b, k);
    } else if k < |e1| + |e2| {
      SegmentRows(b, c, k - |e1|);
    } else {
      SegmentRows(c, a, k - |e1| - |e2|);
    }
  }

  /** The lowest vertex ends one edge and starts the next, so it is traced twice. */
  lemma LowestTwice(a: Pixel, b: Pixel, c: Pixel) returns (v: Pixel)
    ensures v.y == Max(a.y, Max(b.y, c.y))
    ensures multiset(Edges(a, b, c))[v] >= 2
  {
    SegmentEnds(a, b);
    SegmentEnds(b, c);
    SegmentEnds(c, a);
    SharedEnds(Segment(a, b), Segment(b, c), Segment(c, a));
    if a.y == Max(a.y, Max(b.y, c.y)) {
      v := a;
    } else if b.y == Max(a.y, Max(b.y, c.y)) {
      v := b;
    } else {
      v := c;
    }
  }

  /** Three paths closing a loop: each corner ends one path and starts the next, so it occurs twice. */
  lemma SharedEnds(e1: seq<Pixel>, e2: seq<Pixel>, e3: seq<Pixel>)
    requires |e1| >= 1 && |e2| >= 1 && |e3| >= 1
    requires e1[|e1| - 1] == e2[0] && e2[|e2| - 1] == e3[0] && e3[|e3| - 1] == e1[0]
    ensures var m := multiset(e1 + e2 + e3); m[e1[0]] >= 2 && m[e2[0]] >= 2 && m[e3[0]] >= 2
  {
    var all := e1 + e2 + e3;
    assert all[0] == e1[0] && all[|all| - 1] == e1[0];
    TwoCopies(all, 0, |all| - 1);
    assert all[|e1| - 1] == e2[0] && all[|e1|] == e2[0];
    TwoCopies(all, |e1| - 1, |e1|);
    assert all[|e1| + |e2| - 1] == e3[0] && all[|e1| + |e2|] == e3[0];
    TwoCopies(all, |e1| + |e2| - 1, |e1| + |e2|);
  }

  lemma SegmentEnds(p: Pixel, q: Pixel)
    ensures Segment(p, q)[|Segment(p, q)| - 1] == q
  {
    SegmentShape(p, q);
  }

  lemma TwoCopies(s: seq<Pixel>, i: nat, j: nat)
    requires i < j < |s| && s[i] == s[j]
    ensures multiset(s)[s[i]] >= 2
  {
    assert s == s[..i] + [s[i]] + s[i + 1..j] + [s[j]] + s[j + 1..];
  }

  lemma {:induction false} CopiesApart(s: seq<Pixel>, v: Pixel) returns (i: nat, j: nat)
    requires multiset(s)[v] >= 2
    ensures i < j < |s| && s[i] == v && s[j] == v
    decreases |s|
  {
    assert s == [s[0]] + s[1..];
    if s[0] == v {
      assert v in multiset(s[1..]);
      var k :| 0 <= k < |s[1..]| && s[1..][k] == v;
      i, j := 0, k + 1;
    } else {
      var i', j' := CopiesApart(s[1..], v);
      i, j := i' + 1, j' + 1;
    }
  }

  lemma FillCoversAllEdges(a: Pixel, b: Pixel, c: Pixel)
    ensures forall p | p in Edges(a, b, c) :: p in FillPixels(SpansFrom(SortByRow(Edges(a, b, c)), 0))
  {
    forall p | p in Edges(a, b, c) ensures p in FillPixels(SpansFrom(SortByRow(Edges(a, b, c)), 0)) {
      FillCoversEdge(a, b, c, p);
    }
  }

  /** `filledTriangle` draws a span on the row of every point of its edges, and every edge point
      lies inside the span of its row. */
  lemma FillCoversEdge(a: Pixel, b: Pixel, c: Pixel, p: Pixel)
    requires p in Edges(a, b, c)
    ensures p in FillPixels(SpansFrom(SortByRow(Edges(a, b, c)), 0))
  {
    var s := SortByRow(Edges(a, b, c));
    var k := SortedIndex(Edges(a, b, c), p);
    SortByRowSpec(Edges(a, b, c));
    NeverLastAlone(a, b, c, k);
    SpansCoverRows(s, 0);
    SpansSpanRows(s, 0);
    var spans := SpansFrom(s, 0);
    assert HasRow(spans, s[k].y);
    var m :| 0 <= m < |spans| && spans[m].y == s[k].y;
    InFill(spans, m, p.x);
  }

  /** Where a point of `all` sits once sorted. */
  lemma SortedIndex(all: seq<Pixel>, p: Pixel) returns (k: nat)
    requires p in all
    ensures k < |SortByRow(all)| && SortByRow(all)[k] == p
  {
    var s := SortByRow(all);
    SortByRowSpec(all);
    assert p in multiset(all);
    assert p in multiset(s);
    k :| 0 <= k < |s| && s[k] == p;
  }

  /** No sorted edge point is alone on the last row. */
  lemma NeverLastAlone(a: Pixel, b: Pixel, c: Pixel, k: nat)
    requires k < |SortByRow(Edges(a, b, c))|
    ensures !LastAlone(SortByRow(Edges(a, b, c)), k)
  {
    LastRowShared(a, b, c);
  }

  /** The last row of the sorted edge points holds at least two points: the lowest vertex, twice. */
  lemma LastRowShared(a: Pixel, b: Pixel, c: Pixel)
    ensures var s := SortByRow(Edges(a, b, c));
      |s| >= 2 && s[|s| - 2].y == s[|s| - 1].y
  {
    var v := LowestTwice(a, b, c);
    EdgesBelow(a, b, c);
    LastRowOfSorted(Edges(a, b, c), v);
  }

  /** Sorting points of which the lowest occurs twice leaves two points on the last row. */
  lemma LastRowOfSorted(all: seq<Pixel>, v: Pixel)
    requires multiset(all)[v] >= 2
    requires forall e | 0 <= e < |all| :: all[e].y <= v.y
    ensures var s := SortByRow(all); |s| >= 2 && s[|s| - 2].y == s[|s| - 1].y
  {
    var s := SortByRow(all);
    SortByRowSpec(all);
    assert multiset(s) == multiset(all);
    SortedBelow(all, v.y);
    LastRowOfTwice(s, v);
  }

  lemma EdgesBelow(a: Pixel, b: Pixel, c: Pixel)
    ensures forall e | 0 <= e < |Edges(a, b, c)| :: Edges(a, b, c)[e].y <= Max(a.y, Max(b.y, c.y))
  {
    forall e | 0 <= e < |Edges(a, b, c)|
      ensures Edges(a, b, c)[e].y <= Max(a.y, Max(b.y, c.y))
    {
      EdgeRows(a, b, c, e);
    }
  }

  lemma SortedBelow(all: seq<Pixel>, top: int)
    requires forall e | 0 <= e < |all| :: all[e].y <= top
    ensures forall k | 0 <= k < |SortByRow(all)| :: SortByRow(all)[k].y <= top
  {
    var s := SortByRow(all);
    SortByRowSpec(all);
    forall k | 0 <= k < |s|
      ensures s[k].y <= top
    {
      assert s[k] in multiset(all);
    }
  }

  /** In a sorted sequence whose lowest row holds `v` twice, the last two points share that row. */
  lemma LastRowOfTwice(s: seq<Pixel>, v: Pixel)
    requires SortedByRow(s) && multiset(s)[v] >= 2
    requires forall k | 0 <= k < |s| :: s[k].y <= v.y
    ensures |s| >= 2 && s[|s| - 2].y == s[|s| - 1].y
  {
    var i, j := CopiesApart(s, v);
    var n := |s|;
    assert LessEq(s[i], s[n - 2]) || i == n - 2;
    assert LessEq(s[j], s[n - 1]) || j == n - 1;
  }

  /** The vertices of all rings, in order, as `Polygon` hands them to the triangulation. */
  function Vertices(rings: seq<seq<Point>>): seq<Point>
    decreases |rings|
  {
    if rings == [] then [] else Vertices(rings[..|rings| - 1]) + rings[|rings| - 1]
  }

  /** The pixels of the first `n` triangles of a triangulation, filled one after the other. */
  function TrianglesPixels(vs: seq<Point>, tris: seq<nat>, n: nat): seq<Pixel>
    requires 3 * n <= |tris| && forall t | t in tris :: t < |vs|
    decreases n
  {
    if n == 0 then []
    else
      var k := 3 * (n - 1);
      assert tris[k] in tris && tris[k + 1] in tris && tris[k + 2] in tris;
      TrianglesPixels(vs, tris, n - 1) + TriangleAt(vs, tris, k)
  }

  /** The pixels of the triangle whose corners are listed at `tris[k..k + 3]`. */
  function TriangleAt(vs: seq<Point>, tris: seq<nat>, k: nat): seq<Pixel>
    requires k + 3 <= |tris| && tris[k] < |vs| && tris[k + 1] < |vs| && tris[k + 2] < |vs|
  {
    TrianglePixels(ToPixel(vs[tris[k]]), ToPixel(vs[tris[k + 1]]), ToPixel(vs[tris[k + 2]]))
  }

  /** Triangle `n` is drawn after the first `n`. */
  lemma {:induction false} TrianglesStep(vs: seq<Point>, tris: seq<nat>, n: nat, i: nat)
    requires i == 3 * n && i + 3 <= |tris| && forall t | t in tris :: t < |vs|
    ensures tris[i] < |vs| && tris[i + 1] < |vs| && tris[i + 2] < |vs|
    ensures TrianglesPixels(vs, tris, n + 1) == TrianglesPixels(vs, tris, n) + TriangleAt(vs, tris, i)
  {
    assert tris[i] in tris && tris[i + 1] in tris && tris[i + 2] in tris;
  }

  lemma TriangleAtCorners(vs: seq<Point>, tris: seq<nat>, i: nat, p: Point, q: Point, r: Point)
    requires i + 3 <= |tris| && tris[i] < |vs| && tris[i + 1] < |vs| && tris[i + 2] < |vs|
    requires p == vs[tris[i]] && q == vs[tris[i + 1]] && r == vs[tris[i + 2]]
    ensures TriangleAt(vs, tris, i) == TrianglePixels(ToPixel(p), ToPixel(q), ToPixel(r))
  {
  }

  /** A last point alone on its row is not drawn: the sorted points (0,0), (1,0), (5,1) fill row 0
      only. */
  lemma LastLonePointSkipped()
    ensures SpansFrom([Pixel(0, 0), Pixel(1, 0), Pixel(5, 1)], 0) == [Span(0, 0, 1)]
  {
    var pts := [Pixel(0, 0), Pixel(1, 0), Pixel(5, 1)];
    assert RunEnd(pts, 0, 2) == 2;
    assert RunEnd(pts, 0, 1) == 2;
    assert RunEnd(pts, 0, 0) == 2;
    assert SpansFrom(pts, 2) == [];
  }
}
