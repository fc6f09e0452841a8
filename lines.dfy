/**
 * The integer line tracer shared by `bresenham` and `Canvas.line`
 * (rendermaps/canvas.go). Both truncate the end points to integers and run the
 * all-octant Bresenham loop with `dy` negated, `err = dx + dy`, and the two
 * independent tests `e2 >= dy` (step in x) and `e2 <= dx` (step in y).
 */
module Lines {

  import opened Geometry

  function Abs(a: int): nat {
    if a < 0 then -a else a
  }

  function Max(a: int, b: int): int {
    if a < b then b else a
  }

  /** What stays fixed during the loop: the target, the total distances (`d` is `-dy`) and the steps. */
  datatype Config = Config(x1: int, y1: int, dx: int, d: int, sx: int, sy: int)

  /** What the loop updates: the current pixel and the error term. */
  datatype State = State(x: int, y: int, err: int)

  function Here(s: State): Pixel {
    Pixel(s.x, s.y)
  }

  predicate Done(c: Config, s: State) {
    s.x == c.x1 && s.y == c.y1
  }

  /** The distance still to go, in unit moves along the axes. */
  function Dist(c: Config, s: State): nat {
    Abs(c.x1 - s.x) + Abs(c.y1 - s.y)
  }

  /** The error term after the loop has `rx` columns and `ry` rows still to go. */
  function ErrAt(dx: int, d: int, rx: int, ry: int): int {
    dx - d + d * rx - dx * ry
  }

  /** The loop state is consistent: the remaining distances are bounded by the totals, the step
      directions point at the target, and the error term measures the distance from the ideal line. */
  predicate Inv(c: Config, s: State) {
    c.dx >= 0 && c.d >= 0 && Abs(c.x1 - s.x) <= c.dx && Abs(c.y1 - s.y) <= c.d &&
    (c.sx == 1 || c.sx == -1) && (c.sy == 1 || c.sy == -1) &&
    (s.x < c.x1 ==> c.sx == 1) && (c.x1 < s.x ==> c.sx == -1) &&
    (s.y < c.y1 ==> c.sy == 1) && (c.y1 < s.y ==> c.sy == -1) &&
    s.err == ErrAt(c.dx, c.d, Abs(c.x1 - s.x), Abs(c.y1 - s.y))
  }

  /** One iteration of the loop body after the end test. */
  function Next(c: Config, s: State): State {
    var e2 := 2 * s.err;
    var x := if e2 >= -c.d then s.x + c.sx else s.x;
    var errx := if e2 >= -c.d then s.err - c.d else s.err;
    var y := if e2 <= c.dx then s.y + c.sy else s.y;
    var err := if e2 <= c.dx then errx + c.dx else errx;
    State(x, y, err)
  }

  /** With no columns left but some rows, the x test fails. */
  lemma ColumnsDone(dx: int, d: int, ry: int)
    requires dx >= 0 && 1 <= ry <= d
    ensures 2 * ErrAt(dx, d, 0, ry) < -d
  {
    assert dx * ry >= dx;
  }

  /** With no rows left but some columns, the y test fails. */
  lemma RowsDone(dx: int, d: int, rx: int)
    requires d >= 0 && 1 <= rx <= dx
    ensures 2 * ErrAt(dx, d, rx, 0) > dx
  {
    assert d * rx >= d;
  }

  lemma ErrAfterX(dx: int, d: int, rx: int, ry: int)
    ensures ErrAt(dx, d, rx, ry) - d == ErrAt(dx, d, rx - 1, ry)
  {
    assert d * (rx - 1) == d * rx - d;
  }

  lemma ErrAfterY(dx: int, d: int, rx: int, ry: int)
    ensures ErrAt(dx, d, rx, ry) + dx == ErrAt(dx, d, rx, ry - 1)
  {
    assert dx * (ry - 1) == dx * ry - dx;
  }

  predicate UnitStep(a: Pixel, b: Pixel) {
    Abs(b.x - a.x) <= 1 && Abs(b.y - a.y) <= 1 && a != b
  }

  /** A move from `a` to `b` of at most one pixel per axis that gets no farther from `q` on either axis. */
  predicate Advances(a: Pixel, b: Pixel, q: Pixel) {
    UnitStep(a, b) && Abs(q.x - b.x) <= Abs(q.x - a.x) && Abs(q.y - b.y) <= Abs(q.y - a.y)
  }

  /** The three ways one iteration can move: diagonally, along x, or along y, each toward the target
      and with the error term it should have. */
  lemma StepCases(c: Config, s: State)
    requires Inv(c, s) && !Done(c, s)
    ensures var n := Next(c, s); var rx, ry := Abs(c.x1 - s.x), Abs(c.y1 - s.y);
      (rx >= 1 && ry >= 1 && n.x == s.x + c.sx && n.y == s.y + c.sy && n.err == ErrAt(c.dx, c.d, rx - 1, ry - 1)) ||
      (rx >= 1 && n.x == s.x + c.sx && n.y == s.y && n.err == ErrAt(c.dx, c.d, rx - 1, ry)) ||
      (ry >= 1 && n.x == s.x && n.y == s.y + c.sy && n.err == ErrAt(c.dx, c.d, rx, ry - 1))
  {
    var rx: int := Abs(c.x1 - s.x);
    var ry: int := Abs(c.y1 - s.y);
    if rx == 0 {
      ColumnsDone(c.dx, c.d, ry);
    }
    if ry == 0 {
      RowsDone(c.dx, c.d, rx);
    }
    var e2 := 2 * s.err;
    if e2 >= -c.d && e2 <= c.dx {
      ErrAfterX(c.dx, c.d, rx, ry);
      ErrAfterY(c.dx, c.d, rx - 1, ry);
    } else if e2 >= -c.d {
      ErrAfterX(c.dx, c.d, rx, ry);
    } else {
      ErrAfterY(c.dx, c.d, rx, ry);
    }
  }

  /** One iteration: neither axis overshoots, at least one moves, and the state stays consistent. */
  lemma StepKeeps(c: Config, s: State)
    requires Inv(c, s) && !Done(c, s)
    ensures Inv(c, Next(c, s))
    ensures Dist(c, Next(c, s)) < Dist(c, s)
    ensures Advances(Here(s), Here(Next(c, s)), Pixel(c.x1, c.y1))
  {
    StepCases(c, s);
  }

  /** The pixels the loop visits from `s` on, running at most `fuel` iterations. */
  function Walk(c: Config, s: State, fuel: nat): (r: seq<Pixel>)
    ensures |r| >= 1 && r[0] == Here(s)
    decreases fuel
  {
    if Done(c, s) || fuel == 0 then [Here(s)] else [Here(s)] + Walk(c, Next(c, s), fuel - 1)
  }

  /** One iteration of the loop, seen on the walk: the current pixel, then the walk from the next state. */
  lemma WalkUnfold(c: Config, s: State, fuel: nat)
    requires Inv(c, s) && !Done(c, s) && fuel >= Dist(c, s)
    ensures fuel >= 1 && Inv(c, Next(c, s)) && fuel - 1 >= Dist(c, Next(c, s)) && Dist(c, Next(c, s)) < Dist(c, s)
    ensures Walk(c, s, fuel) == [Here(s)] + Walk(c, Next(c, s), fuel - 1)
  {
    StepKeeps(c, s);
  }

  /** The loop invariant of `bresenham` survives one iteration. */
  lemma WalkStep(c: Config, s: State, fuel: nat, done: seq<Pixel>, whole: seq<Pixel>)
    requires Inv(c, s) && !Done(c, s) && fuel >= Dist(c, s)
    requires done + Walk(c, s, fuel) == whole
    ensures fuel >= 1 && Inv(c, Next(c, s)) && fuel - 1 >= Dist(c, Next(c, s)) && Dist(c, Next(c, s)) < Dist(c, s)
    ensures (done + [Here(s)]) + Walk(c, Next(c, s), fuel - 1) == whole
  {
    WalkUnfold(c, s, fuel);
    var tail := Walk(c, Next(c, s), fuel - 1);
    assert done + ([Here(s)] + tail) == (done + [Here(s)]) + tail;
  }

  /** The loop of `bresenham` or `line` has painted `done` and will visit the rest of `whole` from `s` on. */
  ghost predicate Tracing(c: Config, s: State, fuel: nat, done: seq<Pixel>, whole: seq<Pixel>) {
    Inv(c, s) && fuel >= Dist(c, s) && done + Walk(c, s, fuel) == whole
  }

  lemma TracingStep(c: Config, s: State, fuel: nat, done: seq<Pixel>, whole: seq<Pixel>)
    requires Tracing(c, s, fuel, done, whole) && !Done(c, s)
    ensures fuel >= 1 && Tracing(c, Next(c, s), fuel - 1, done + [Here(s)], whole)
    ensures Dist(c, Next(c, s)) < Dist(c, s)
  {
    WalkStep(c, s, fuel, done, whole);
  }

  lemma TracingDone(c: Config, s: State, fuel: nat, done: seq<Pixel>, whole: seq<Pixel>)
    requires Tracing(c, s, fuel, done, whole) && Done(c, s)
    ensures done + [Here(s)] == whole
  {
  }

  /** Before the loop: nothing drawn, the whole segment still to walk. */
  lemma SetupTracing(p: Pixel, q: Pixel)
    ensures var cs := Setup(p, q); Tracing(cs.0, cs.1, Dist(cs.0, cs.1), [], Segment(p, q))
  {
    SetupValid(p, q);
  }

  /** Step `i` of the pixel sequence `r` advances toward `q`. */
  predicate StepOk(r: seq<Pixel>, i: int, q: Pixel)
    requires 0 <= i < |r| - 1
  {
    Advances(r[i], r[i + 1], q)
  }

  /** The distance from `a` to `q` along the longer axis. */
  function Reach(a: Pixel, q: Pixel): nat {
    Max(Abs(q.x - a.x), Abs(q.y - a.y))
  }

  /** A pixel path that ends on `q`, advances toward it at every step, and has at least one pixel
      per unit of the longer axis from its start and at most `dist + 1` pixels. */
  ghost predicate Shaped(r: seq<Pixel>, q: Pixel, dist: int) {
    |r| >= 1 && r[|r| - 1] == q &&
    (forall i | 0 <= i < |r| - 1 :: StepOk(r, i, q)) &&
    Reach(r[0], q) + 1 <= |r| <= dist + 1
  }

  /** The walk from `s` has the shape of a segment to the target, with `Dist(c, s)` as the bound. */
  ghost predicate WalkShaped(c: Config, s: State, fuel: nat) {
    Shaped(Walk(c, s, fuel), Pixel(c.x1, c.y1), Dist(c, s))
  }

  /** Given enough iterations, the walk has its shape. */
  lemma {:induction false} WalkShape(c: Config, s: State, fuel: nat)
    requires Inv(c, s) && fuel >= Dist(c, s)
    ensures WalkShaped(c, s, fuel)
    decreases fuel
  {
    if !Done(c, s) {
      StepKeeps(c, s);
      WalkShape(c, Next(c, s), fuel - 1);
      ShapedCons(Here(s), Walk(c, Next(c, s), fuel - 1), Pixel(c.x1, c.y1), Dist(c, s), Dist(c, Next(c, s)));
    }
  }

  /** Prepending a pixel that advances to the start of a shaped path, one unit farther away. */
  lemma ShapedCons(h: Pixel, rest: seq<Pixel>, q: Pixel, dist: int, dist': int)
    requires |rest| >= 1 && Advances(h, rest[0], q)
    requires Shaped(rest, q, dist') && dist' < dist
    ensures Shaped([h] + rest, q, dist)
  {
    var r := [h] + rest;
    assert |r| == |rest| + 1 && r[|r| - 1] == rest[|rest| - 1] && r[0] == h;
    StepsCons(h, rest, q);
    AdvanceSpan(h, rest[0], q);
  }

  /** One advancing step reduces the longer axis's distance by at most one. */
  lemma AdvanceSpan(a: Pixel, b: Pixel, q: Pixel)
    requires Advances(a, b, q)
    ensures Reach(a, q) <= Reach(b, q) + 1
  {
  }

  /** Prepending a pixel that advances to the first one keeps every step advancing. */
  lemma StepsCons(h: Pixel, rest: seq<Pixel>, q: Pixel)
    requires |rest| >= 1 && Advances(h, rest[0], q)
    requires forall i | 0 <= i < |rest| - 1 :: StepOk(rest, i, q)
    ensures forall i | 0 <= i < |[h] + rest| - 1 :: StepOk([h] + rest, i, q)
  {
    var r := [h] + rest;
    forall i | 0 <= i < |r| - 1
      ensures StepOk(r, i, q)
    {
      if i > 0 {
        assert StepOk(rest, i - 1, q);
        assert r[i] == rest[i - 1] && r[i + 1] == rest[i];
      }
    }
  }

  /** The configuration and initial state the Go code sets up for a segment from `p` to `q`. */
  function Setup(p: Pixel, q: Pixel): (Config, State) {
    var dx := Abs(q.x - p.x);
    var d := Abs(q.y - p.y);
    (Config(q.x, q.y, dx, d, if p.x < q.x then 1 else -1, if p.y < q.y then 1 else -1), State(p.x, p.y, dx - d))
  }

  lemma SetupValid(p: Pixel, q: Pixel)
    ensures Inv(Setup(p, q).0, Setup(p, q).1)
  {
    var c := Setup(p, q).0;
    assert ErrAt(c.dx, c.d, c.dx, c.d) == c.dx - c.d;
  }

  /** The pixels `bresenham` returns and `line` paints, in order. */
  function Segment(p: Pixel, q: Pixel): (r: seq<Pixel>)
    ensures |r| >= 1 && r[0] == p
  {
    var cs := Setup(p, q);
    Walk(cs.0, cs.1, Dist(cs.0, cs.1))
  }

  /** A segment starts at `p`, ends at `q`, is 8-connected, moves monotonically toward `q`, and has
      one pixel per unit of its longer axis at least and one per unit of Manhattan distance at most. */
  lemma SegmentShape(p: Pixel, q: Pixel)
    ensures Segment(p, q)[0] == p && Segment(p, q)[|Segment(p, q)| - 1] == q
    ensures forall i | 0 <= i < |Segment(p, q)| - 1 :: StepOk(Segment(p, q), i, q)
    ensures Max(Abs(q.x - p.x), Abs(q.y - p.y)) + 1 <= |Segment(p, q)| <= Abs(q.x - p.x) + Abs(q.y - p.y) + 1
  {
    SetupValid(p, q);
    var cs := Setup(p, q);
    WalkShape(cs.0, cs.1, Dist(cs.0, cs.1));
  }

  /** A horizontal segment visits every column from `a` to `b` exactly once, left to right. */
  lemma HorizontalSegment(y: int, a: int, b: int)
    requires a <= b
    ensures Segment(Pixel(a, y), Pixel(b, y)) == seq(b - a + 1, i => Pixel(a + i, y))
  {
    var r := Segment(Pixel(a, y), Pixel(b, y));
    SegmentShape(Pixel(a, y), Pixel(b, y));
    forall i | 0 <= i < |r|
      ensures r[i] == Pixel(a + i, y)
    {
      HorizontalStep(r, a, b, y, i);
    }
  }

  lemma {:induction false} HorizontalStep(r: seq<Pixel>, a: int, b: int, y: int, i: nat)
    requires i < |r| && r[0] == Pixel(a, y) && a <= b && |r| <= b - a + 1
    requires r[|r| - 1] == Pixel(b, y)
    requires forall k | 0 <= k < |r| - 1 :: StepOk(r, k, Pixel(b, y))
    ensures r[i] == Pixel(a + i, y)
  {
    if i > 0 {
      HorizontalStep(r, a, b, y, i - 1);
      assert StepOk(r, i - 1, Pixel(b, y));
      assert a + i - 1 < b;
    }
  }

  /** The set-up `bresenham` does before its loop: distances, step directions and the error term. */
  method Prepare(start: Pixel, end: Pixel) returns (dx: int, dy: int, sx: int, sy: int, err: int)
    ensures Setup(start, end) == (Config(end.x, end.y, dx, -dy, sx, sy), State(start.x, start.y, err))
  {
    var x0, y0, x1, y1 := start.x, start.y, end.x, end.y;
    dx := x1 - x0;
    if dx < 0 {
      dx := -dx;
    }
    sx := -1;
    if x0 < x1 {
      sx := 1;
    }
    dy := y1 - y0;
    if dy < 0 {
      dy := -dy;
    }
    dy := -dy;
    sy := -1;
    if y0 < y1 {
      sy := 1;
    }
    err := dx + dy;
  }

  /** `bresenham`: the segment between the truncated end points. */
  method Bresenham(p1: Point, p2: Point) returns (points: seq<Pixel>)
    ensures points == Segment(ToPixel(p1), ToPixel(p2))
  {
    var start, end := ToPixel(p1), ToPixel(p2);
    var dx, dy, sx, sy, err := Prepare(start, end);
    var x0, y0, x1, y1 := start.x, start.y, end.x, end.y;
    ghost var c := Config(x1, y1, dx, -dy, sx, sy);
    ghost var fuel := Dist(c, State(x0, y0, err));
    ghost var whole := Segment(start, end);
    SetupTracing(start, end);
    points := [];
    ghost var s := State(x0, y0, err);
    while true
      invariant s == State(x0, y0, err)
      invariant Tracing(c, s, fuel, points, whole)
      decreases Dist(c, s)
    {
      if x0 == x1 && y0 == y1 {
        TracingDone(c, s, fuel, points, whole);
        points := points + [Pixel(x0, y0)];
        break;
      }
      TracingStep(c, s, fuel, points, whole);
      points := points + [Pixel(x0, y0)];
      x0, y0, err := Advance(x0, y0, err, dx, dy, sx, sy, c);
      s, fuel := Next(c, s), fuel - 1;
    }
  }

  /** The body of `bresenham`'s loop after the end test: step in x when `2*err >= dy`, in y when
      `2*err <= dx`, and adjust the error term for each step taken. */
  method Advance(x0: int, y0: int, err: int, dx: int, dy: int, sx: int, sy: int, ghost c: Config)
    returns (x: int, y: int, e: int)
    requires c.dx == dx && c.d == -dy && c.sx == sx && c.sy == sy
    ensures State(x, y, e) == Next(c, State(x0, y0, err))
  {
    x, y, e := x0, y0, err;
    var e2 := 2 * err;
    if e2 >= dy {
      e := e + dy;
      x := x + sx;
    }
    if e2 <= dx {
      e := e + dx;
      y := y + sy;
    }
  }
}
