/**
 The sparkline rasteriser of the stats overlay: an error-accumulator loop without a step counter.

 The reference definition is `IdealPoint`: walk the longer axis one pixel at a time and round the
 exact position on the other axis to the nearest pixel, ties away from the start.  The loop keeps
 neither a counter nor a division, so everything here rests on tying its `err` to that closed form.
 */
module LineRaster {
  import opened Arithmetic

  type Color = c: int | 0 <= c < 0x1_0000_0000

  datatype Point = Point(x: int, y: int)

  function Abs(v: int): nat {
    if v < 0 then -v else v
  }

  /** A segment, by its two end pixels. */
  datatype Line = Line(x0: nat, y0: nat, x1: nat, y1: nat) {
    function Dx(): nat { Abs(x1 - x0) }

    function Dy(): nat { Abs(y1 - y0) }

    /** The length of the longer axis. */
    function Steps(): nat { if Dx() >= Dy() then Dx() else Dy() }
  }

  /** `k * minor / major` rounded to the nearest integer, ties upwards. */
  function Nearest(k: nat, minor: nat, major: nat): nat {
    if major == 0 then 0 else (2 * k * minor + major) / (2 * major)
  }

  /** How many pixels the `k`-th point lies from the start, along x. */
  function AlongX(l: Line, k: nat): nat {
    if l.Dx() >= l.Dy() then k else Nearest(k, l.Dx(), l.Dy())
  }

  /** How many pixels the `k`-th point lies from the start, along y. */
  function AlongY(l: Line, k: nat): nat {
    if l.Dx() >= l.Dy() then Nearest(k, l.Dy(), l.Dx()) else k
  }

  /** `d` pixels from `start`, in the direction of `end`. */
  function Toward(start: nat, end: nat, d: nat): int {
    if start < end then start + d else start - d
  }

  function IdealPoint(l: Line, k: nat): Point {
    Point(Toward(l.x0, l.x1, AlongX(l, k)), Toward(l.y0, l.y1, AlongY(l, k)))
  }

  /** The value of the loop's accumulator when it stands on the `k`-th point. */
  function ErrAt(l: Line, k: nat): int {
    AlongY(l, k) * l.Dx() + l.Dx() - AlongX(l, k) * l.Dy() - l.Dy()
  }

  /** Pixel `q` lies inside the frame, on flat index `p`. */
  predicate Covers(q: Point, width: nat, height: nat, p: int) {
    0 <= q.x < width && 0 <= q.y < height && p == q.y * width + q.x
  }

  /** One of the first `n` points falls on flat index `p`. */
  ghost predicate Plotted(l: Line, n: nat, width: nat, height: nat, p: int) {
    exists k: nat :: k < n && Covers(IdealPoint(l, k), width, height, p)
  }

  /** `after` is `before` with the first `n` points painted over in `c`. */
  ghost predicate Painted(before: seq<Color>, after: seq<Color>, l: Line, n: nat, width: nat, height: nat, c: Color) {
    && |after| == |before|
    && forall p :: 0 <= p < |after| ==> after[p] == if Plotted(l, n, width, height, p) then c else before[p]
  }

  lemma {:induction false} NearestBounds(k: nat, minor: nat, major: nat)
    requires major > 0
    ensures var j := Nearest(k, minor, major);
            2 * (j * major) <= 2 * (k * minor) + major < 2 * (j * major) + 2 * major
  {
    var n, d := 2 * k * minor + major, 2 * major;
    var j := n / d;
    assert j * d <= n < j * d + d;
    assert j * d == 2 * (j * major);
    assert 2 * k * minor == 2 * (k * minor);
  }

  lemma {:induction false} NearestUnique(k: nat, minor: nat, major: nat, j: nat)
    requires major > 0
    requires 2 * (j * major) <= 2 * (k * minor) + major < 2 * (j * major) + 2 * major
    ensures Nearest(k, minor, major) == j
  {
    assert 2 * k * minor == 2 * (k * minor);
    assert j * (2 * major) == 2 * (j * major);
    DivUnique(2 * k * minor + major, 2 * major, j);
  }

  /**
   Moving on by one major step moves the rounded minor coordinate by one exactly when the exact one has passed the
   half.
   */
  lemma {:induction false} NearestStep(k: nat, minor: nat, major: nat)
    requires major > 0 && minor <= major
    ensures var j := Nearest(k, minor, major);
            Nearest(k + 1, minor, major)
            == if 2 * (j * major) + major <= 2 * (k * minor) + 2 * minor then j + 1 else j
  {
    var j := Nearest(k, minor, major);
    NearestBounds(k, minor, major);
    assert (k + 1) * minor == k * minor + minor;
    assert (j + 1) * major == j * major + major;
    if 2 * (j * major) + major <= 2 * (k * minor) + 2 * minor {
      NearestUnique(k + 1, minor, major, j + 1);
    } else {
      NearestUnique(k + 1, minor, major, j);
    }
  }

  /**
   The two loop guards when the minor coordinate is a rounded one: the major axis always steps, the minor one exactly
   when rounding says so.
   */
  lemma {:induction false} GuardsOnRoundedAxis(k: nat, minor: nat, major: nat)
    requires k < major && minor <= major
    ensures var j, j' := Nearest(k, minor, major), Nearest(k + 1, minor, major);
            var e2 := 2 * (j * major + major - k * minor - minor);
            && e2 >= 0 - minor
            && (e2 <= major ==> j' == j + 1 && j' * major == j * major + major)
            && (e2 > major ==> j' == j)
            && (k + 1) * minor == k * minor + minor
  {
    NearestBounds(k, minor, major);
    NearestStep(k, minor, major);
    var j := Nearest(k, minor, major);
    assert (j + 1) * major == j * major + major;
    assert (k + 1) * minor == k * minor + minor;
  }

  lemma {:induction false} AxesFollowIdeal(l: Line, k: nat)
    requires k < l.Steps()
    ensures var stepX, stepY := 2 * ErrAt(l, k) >= 0 - l.Dy(), 2 * ErrAt(l, k) <= l.Dx();
            && AlongX(l, k + 1) == AlongX(l, k) + (if stepX then 1 else 0)
            && AlongY(l, k + 1) == AlongY(l, k) + (if stepY then 1 else 0)
            && ErrAt(l, k + 1) == ErrAt(l, k) - (if stepX then l.Dy() else 0) + (if stepY then l.Dx() else 0)
  {
    if l.Dx() >= l.Dy() {
      GuardsOnRoundedAxis(k, l.Dy(), l.Dx());
    } else {
      GuardsOnRoundedAxis(k, l.Dx(), l.Dy());
    }
  }

  /** One pass of the loop body, from the `k`-th point to the next. */
  lemma {:induction false} StepFollowsIdeal(l: Line, k: nat)
    requires k < l.Steps()
    ensures var e2, p := 2 * ErrAt(l, k), IdealPoint(l, k);
            var stepX, stepY := e2 >= 0 - l.Dy(), e2 <= l.Dx();
            && IdealPoint(l, k + 1)
               == Point(if !stepX then p.x else if l.x0 < l.x1 then p.x + 1 else p.x - 1,
                        if !stepY then p.y else if l.y0 < l.y1 then p.y + 1 else p.y - 1)
            && ErrAt(l, k + 1) == ErrAt(l, k) - (if stepX then l.Dy() else 0) + (if stepY then l.Dx() else 0)
  {
    AxesFollowIdeal(l, k);
  }

  /** The walk starts on one end pixel and its last point is the other. */
  lemma {:induction false} EndsMeetEndpoints(l: Line)
    ensures IdealPoint(l, 0) == Point(l.x0, l.y0)
    ensures IdealPoint(l, l.Steps()) == Point(l.x1, l.y1)
  {
    var dx, dy := l.Dx(), l.Dy();
    if dx >= dy && dx > 0 {
      NearestUnique(0, dy, dx, 0);
      NearestUnique(dx, dy, dx, dy);
    } else if dy > 0 {
      NearestUnique(0, dx, dy, 0);
      NearestUnique(dy, dx, dy, dx);
    }
  }

  /**
   Half-pixel accuracy: with `i` and `j` the distances walked on the two axes, the point is off the
   exact line `i * dy == j * dx` by at most half a pixel of the longer axis.
   */
  lemma {:induction false} WithinHalfPixel(l: Line, k: nat)
    requires k <= l.Steps()
    ensures Abs(2 * (AlongX(l, k) * l.Dy() - AlongY(l, k) * l.Dx())) <= l.Steps()
  {
    var dx, dy := l.Dx(), l.Dy();
    if dx >= dy && dx > 0 {
      NearestBounds(k, dy, dx);
    } else if dy > 0 {
      NearestBounds(k, dx, dy);
    }
  }

  lemma {:induction false} NearestMonotone(k: nat, m: nat, minor: nat, major: nat)
    requires k <= m && minor <= major && major > 0
    ensures Nearest(k, minor, major) <= Nearest(m, minor, major) <= Nearest(k, minor, major) + (m - k)
    decreases m - k
  {
    if k < m {
      NearestMonotone(k, m - 1, minor, major);
      NearestStep(m - 1, minor, major);
    }
  }

  /** Every point of the walk lies in the bounding box of the two end pixels. */
  lemma {:induction false} InsideBoundingBox(l: Line, k: nat)
    requires k <= l.Steps()
    ensures AlongX(l, k) <= l.Dx() && AlongY(l, k) <= l.Dy()
    ensures var q := IdealPoint(l, k);
            && (l.x0 <= q.x <= l.x1 || l.x1 <= q.x <= l.x0)
            && (l.y0 <= q.y <= l.y1 || l.y1 <= q.y <= l.y0)
  {
    var dx, dy := l.Dx(), l.Dy();
    if dx >= dy && dx > 0 {
      NearestUnique(dx, dy, dx, dy);
      NearestMonotone(k, dx, dy, dx);
    } else if dy > 0 {
      NearestUnique(dy, dx, dy, dx);
      NearestMonotone(k, dy, dx, dy);
    }
  }

  /** Exactly one point per coordinate of the longer axis, and neighbours touch. */
  lemma {:induction false} OnePointPerMajorCoordinate(l: Line, k: nat, m: nat)
    requires k < m <= l.Steps()
    ensures var p, q := IdealPoint(l, k), IdealPoint(l, m);
            if l.Dx() >= l.Dy() then q.x == Toward(l.x0, l.x1, m) != p.x && Abs(q.y - p.y) <= m - k
            else q.y == Toward(l.y0, l.y1, m) != p.y && Abs(q.x - p.x) <= m - k
  {
    if l.Dx() >= l.Dy() {
      NearestMonotone(k, m, l.Dy(), l.Dx());
    } else {
      NearestMonotone(k, m, l.Dx(), l.Dy());
    }
  }

  /** For a pixel of the frame, being painted is the same as being one of the ideal points. */
  lemma {:induction false} PaintedIffIdeal(l: Line, n: nat, width: nat, height: nat, x: nat, y: nat)
    requires x < width && y < height
    ensures Plotted(l, n, width, height, y * width + x)
            <==> exists k: nat :: k < n && IdealPoint(l, k) == Point(x, y)
  {
    if Plotted(l, n, width, height, y * width + x) {
      var k: nat :| k < n && Covers(IdealPoint(l, k), width, height, y * width + x);
      var q := IdealPoint(l, k);
      DivUnique(y * width + x, width, y);
      DivUnique(y * width + x, width, q.y);
      assert q == Point(x, y);
    }
    if exists k: nat :: k < n && IdealPoint(l, k) == Point(x, y) {
      var k: nat :| k < n && IdealPoint(l, k) == Point(x, y);
      assert Covers(IdealPoint(l, k), width, height, y * width + x);
    }
  }

  /** Nothing is painted behind the frame's own pixels, wherever the line goes. */
  lemma {:induction false} PaintsInsideFrame(l: Line, n: nat, width: nat, height: nat, p: nat)
    requires Plotted(l, n, width, height, p)
    ensures p < width * height
  {
    var k: nat :| k < n && Covers(IdealPoint(l, k), width, height, p);
    FlatIndexInRange(width, height, IdealPoint(l, k).x, IdealPoint(l, k).y);
  }

  const ISIZE_MAX: int := 0x7FFF_FFFF_FFFF_FFFF

  predicate FitsIsize(v: int) {
    -ISIZE_MAX <= v <= ISIZE_MAX
  }

  /**
   For coordinates below 2^61 every signed value of a loop pass fits `isize`: the accumulator, its double, its value
   between the two guards and after them, and the coordinates before and after their steps.
   */
  lemma {:induction false} AccumulatorFitsIsize(l: Line, k: nat)
    requires k <= l.Steps()
    requires l.x0 < 0x2000_0000_0000_0000 && l.x1 < 0x2000_0000_0000_0000
    requires l.y0 < 0x2000_0000_0000_0000 && l.y1 < 0x2000_0000_0000_0000
    ensures var err := ErrAt(l, k);
            var between := if 2 * err >= 0 - l.Dy() then err - l.Dy() else err;
            var after := if 2 * err <= l.Dx() then between + l.Dx() else between;
            FitsIsize(err) && FitsIsize(2 * err) && FitsIsize(between) && FitsIsize(after)
    ensures var p := IdealPoint(l, k);
            FitsIsize(p.x - 1) && FitsIsize(p.x + 1) && FitsIsize(p.y - 1) && FitsIsize(p.y + 1)
  {
    WithinHalfPixel(l, k);
    InsideBoundingBox(l, k);
  }

  lemma {:induction false} FlatIndexInRange(width: nat, height: nat, x: nat, y: nat)
    requires x < width && y < height
    ensures y * width + x < width * height
  {
    assert (y + 1) * width <= height * width;
  }

  lemma {:induction false} PaintedOneMore(start: seq<Color>, before: seq<Color>, after: seq<Color>,
                                          l: Line, k: nat, width: nat, height: nat, c: Color)
    requires Painted(start, before, l, k, width, height, c) && |after| == |before|
    requires forall p :: 0 <= p < |after| ==>
               after[p] == if Covers(IdealPoint(l, k), width, height, p) then c else before[p]
    ensures Painted(start, after, l, k + 1, width, height, c)
  {
    forall p | 0 <= p < |after|
      ensures after[p] == if Plotted(l, k + 1, width, height, p) then c else start[p]
    {
      if Plotted(l, k + 1, width, height, p) && !Plotted(l, k, width, height, p) {
        var m: nat :| m < k + 1 && Covers(IdealPoint(l, m), width, height, p);
        assert m == k;
      }
    }
  }

  /** The loop's exit test succeeds on the last point and on no earlier one. */
  lemma {:induction false} OnlyTheLastIsTheEnd(l: Line, k: nat)
    requires k <= l.Steps()
    ensures IdealPoint(l, k) == Point(l.x1, l.y1) <==> k == l.Steps()
  {
    EndsMeetEndpoints(l);
    if k < l.Steps() {
      OnePointPerMajorCoordinate(l, k, l.Steps());
    }
  }

  method SetPixel(frame: array<Color>, width: nat, height: nat, x: nat, y: nat, c: Color)
    requires width * height <= frame.Length
    modifies frame
    ensures forall p :: 0 <= p < frame.Length ==>
              frame[p] == if Covers(Point(x, y), width, height, p) then c else old(frame[p])
  {
    if x < width && y < height {
      FlatIndexInRange(width, height, x, y);
      frame[y * width + x] := c;
    }
  }

  /** Paints the `k`-th point on top of the earlier ones, as far as it lies inside the frame. */
  method PaintPoint(frame: array<Color>, width: nat, height: nat, x: int, y: int, c: Color,
                    ghost start: seq<Color>, ghost l: Line, ghost k: nat)
    requires width * height <= frame.Length && Point(x, y) == IdealPoint(l, k)
    requires Painted(start, frame[..], l, k, width, height, c)
    modifies frame
    ensures Painted(start, frame[..], l, k + 1, width, height, c)
  {
    ghost var before := frame[..];
    if x >= 0 && y >= 0 {
      SetPixel(frame, width, height, x, y, c);
    }
    PaintedOneMore(start, before, frame[..], l, k, width, height, c);
  }

  /** The loop's variables stand on the `k`-th point. */
  ghost predicate StandsOn(l: Line, k: nat, x: int, y: int, err: int) {
    k <= l.Steps() && Point(x, y) == IdealPoint(l, k) && err == ErrAt(l, k)
  }

  /** One pass of the loop body, on the loop's own variables. */
  lemma {:induction false} PassMovesOn(l: Line, k: nat, x: int, y: int, err: int)
    requires StandsOn(l, k, x, y, err) && k < l.Steps()
    ensures var stepX, stepY := 2 * err >= 0 - l.Dy(), 2 * err <= l.Dx();
            StandsOn(l, k + 1,
                     if !stepX then x else if l.x0 < l.x1 then x + 1 else x - 1,
                     if !stepY then y else if l.y0 < l.y1 then y + 1 else y - 1,
                     err - (if stepX then l.Dy() else 0) + (if stepY then l.Dx() else 0))
  {
    StepFollowsIdeal(l, k);
  }

  lemma {:induction false} StandsOnEnds(l: Line, k: nat, x: int, y: int, err: int)
    requires StandsOn(l, k, x, y, err)
    ensures x == l.x1 && y == l.y1 <==> k == l.Steps()
  {
    OnlyTheLastIsTheEnd(l, k);
  }

  lemma {:induction false} StandsOnStart(l: Line)
    ensures StandsOn(l, 0, l.x0, l.y0, l.Dx() - l.Dy())
  {
    EndsMeetEndpoints(l);
    if l.Dx() >= l.Dy() && l.Dx() > 0 {
      NearestUnique(0, l.Dy(), l.Dx(), 0);
    } else if l.Dy() > 0 {
      NearestUnique(0, l.Dx(), l.Dy(), 0);
    }
  }

  /** The points visited so far are the first ideal points, in order. */
  ghost predicate VisitsIdeal(l: Line, visited: seq<Point>) {
    forall k :: 0 <= k < |visited| ==> visited[k] == IdealPoint(l, k)
  }

  /**
   The loop terminates, visits exactly the `Steps() + 1` ideal points in order, paints those that
   fall inside the frame and leaves every other pixel alone.
   */
  method DrawLine(frame: array<Color>, width: nat, height: nat,
                  x0: nat, y0: nat, x1: nat, y1: nat, c: Color)
    returns (ghost visited: seq<Point>)
    requires width * height <= frame.Length
    modifies frame
    ensures var l := Line(x0, y0, x1, y1);
            && |visited| == l.Steps() + 1
            && VisitsIdeal(l, visited)
            && Painted(old(frame[..]), frame[..], l, l.Steps() + 1, width, height, c)
  {
    ghost var l := Line(x0, y0, x1, y1);
    ghost var k := 0;
    visited := [];
    StandsOnStart(l);
    var dx := Abs(x1 - x0);
    var dy: int := 0 - Abs(y1 - y0);
    var sx := if x0 < x1 then 1 else -1;
    var sy := if y0 < y1 then 1 else -1;
    var err := dx + dy;
    var x: int, y: int := x0, y0;
    while true
      invariant StandsOn(l, k, x, y, err)
      invariant |visited| == k && VisitsIdeal(l, visited)
      invariant Painted(old(frame[..]), frame[..], l, k, width, height, c)
      decreases l.Steps() - k
    {
      visited := visited + [Point(x, y)];
      PaintPoint(frame, width, height, x, y, c, old(frame[..]), l, k);
      StandsOnEnds(l, k, x, y, err);
      if x == x1 && y == y1 {
        break;
      }
      PassMovesOn(l, k, x, y, err);
      var e2 := 2 * err;
      if e2 >= dy {
        err := err + dy;
        x := x + sx;
      }
      if e2 <= dx {
        err := err + dx;
        y := y + sy;
      }
      k := k + 1;
    }
  }
}
