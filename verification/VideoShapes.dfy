/** The shapes the drawing commands paint, as sets of points. */
module VideoShapes {
  import opened Words
  import opened VideoMemory

  function Abs(a: int): nat { if a < 0 then -a else a }
  function Sign(a: int): int { if a > 0 then 1 else -1 }

  // ---- spans and rectangles ----

  predicate Between(x: int, a: int, b: int) { Min(a, b) <= x <= Max(a, b) }

  /** The pixels of a row between two ends, both included, given in either order. */
  ghost function Span(x0: int, x1: int, y: int): iset<Point> {
    iset p: Point | p.y == y && Between(p.x, x0, x1)
  }

  predicate InBox(p: Point, x: int, y: int, w: int, h: int) { x <= p.x < x + w && y <= p.y < y + h }

  ghost function Box(x: int, y: int, w: int, h: int): iset<Point> {
    iset p: Point | InBox(p, x, y, w, h)
  }

  /** The outermost pixels of a box. */
  ghost function Frame(x: int, y: int, w: int, h: int): iset<Point> {
    iset p: Point | InBox(p, x, y, w, h) && (p.x == x || p.x == x + w - 1 || p.y == y || p.y == y + h - 1)
  }

  ghost function Everything(): iset<Point> {
    iset p: Point | p == Point(p.x, p.y)
  }

  // ---- lines ----

  /** Division rounded to nearest, halves up. */
  function RoundDiv(n: int, d: int): int
    requires d > 0
  {
    (2 * n + d) / (2 * d)
  }

  /** Pixel `i` of the line from (x0, y0): one step a pixel along the longer axis, and along the
      other the ideal line's distance rounded to the nearest pixel. */
  function LinePoint(x0: int, y0: int, x1: int, y1: int, i: nat): Point {
    var dx, dy := x1 - x0, y1 - y0;
    var a, b := Abs(dx), Abs(dy);
    if a == 0 && b == 0 then Point(x0, y0)
    else if a >= b then Point(x0 + Sign(dx) * i, y0 + Sign(dy) * RoundDiv(b * i, a))
    else Point(x0 + Sign(dx) * RoundDiv(a * i, b), y0 + Sign(dy) * i)
  }

  /** How many pixels a line has. */
  function LineLength(x0: int, y0: int, x1: int, y1: int): nat { Max(Abs(x1 - x0), Abs(y1 - y0)) + 1 }

  /** The first pixels of a line, and all of them. */
  ghost function LineTo(x0: int, y0: int, x1: int, y1: int, n: nat): iset<Point> {
    iset i: nat | i < n :: LinePoint(x0, y0, x1, y1, i)
  }

  ghost function LinePoints(x0: int, y0: int, x1: int, y1: int): iset<Point> {
    LineTo(x0, y0, x1, y1, LineLength(x0, y0, x1, y1))
  }

  /** Dividing gives the nearest integer: no other is as close, and of two as close it is the upper. */
  lemma RoundDivNearest(n: int, d: int)
    requires d > 0
    ensures -d < 2 * (RoundDiv(n, d) * d - n) <= d
  {
  }

  lemma RoundDivIs(n: int, d: int, q: int)
    requires d > 0 && -d < 2 * (q * d - n) <= d
    ensures RoundDiv(n, d) == q
  {
    assert q * (2 * d) == 2 * (q * d);
    DivUnique(2 * n + d, 2 * d, q, 2 * n + d - 2 * (q * d));
  }

  lemma Further(q: int, r: int, k: nat, d: nat)
    requires q + k <= r
    ensures q * d + k * d <= r * d
  {
    assert r * d - q * d - k * d == (r - q - k) * d;
  }

  /** A step along the longer axis moves the other coordinate by 0 or 1. */
  lemma RoundDivSteps(b: nat, a: nat, i: nat)
    requires 0 < a && b <= a
    ensures RoundDiv(b * i, a) <= RoundDiv(b * (i + 1), a) <= RoundDiv(b * i, a) + 1
  {
    RoundDivNearest(b * i, a);
    RoundDivNearest(b * (i + 1), a);
    var q, r := RoundDiv(b * i, a), RoundDiv(b * (i + 1), a);
    MulDist(i, 1, b);
    if r < q {
      Further(r, q, 1, a);
    } else if r > q + 1 {
      Further(q, r, 2, a);
    }
  }

  lemma RoundDivEnds(b: nat, a: nat)
    requires 0 < a
    ensures RoundDiv(b * 0, a) == 0 && RoundDiv(b * a, a) == b
  {
    RoundDivIs(0, a, 0);
    RoundDivIs(b * a, a, b);
  }

  lemma {:induction false} RoundDivInRange(b: nat, a: nat, i: nat)
    requires 0 < a && b <= a && i <= a
    ensures 0 <= RoundDiv(b * i, a) <= b
    decreases a - i
  {
    RoundDivEnds(b, a);
    if i < a {
      RoundDivInRange(b, a, i + 1);
      RoundDivSteps(b, a, i);
    }
    RoundDivNearest(b * i, a);
    if RoundDiv(b * i, a) < 0 {
      Further(RoundDiv(b * i, a), 0, 1, a);
    }
  }

  /** A line starts at one end and ends at the other. */
  lemma LineEnds(x0: int, y0: int, x1: int, y1: int)
    ensures LinePoint(x0, y0, x1, y1, 0) == Point(x0, y0)
    ensures LinePoint(x0, y0, x1, y1, LineLength(x0, y0, x1, y1) - 1) == Point(x1, y1)
  {
    var a, b := Abs(x1 - x0), Abs(y1 - y0);
    if a >= b && a > 0 {
      RoundDivEnds(b, a);
    } else if a < b {
      RoundDivEnds(a, b);
    }
  }

  /** Each pixel of a line touches the next, at a side or a corner, and none is drawn twice. */
  lemma LineConnected(x0: int, y0: int, x1: int, y1: int, i: nat)
    requires i + 1 < LineLength(x0, y0, x1, y1)
    ensures var p, q := LinePoint(x0, y0, x1, y1, i), LinePoint(x0, y0, x1, y1, i + 1);
            Max(Abs(q.x - p.x), Abs(q.y - p.y)) == 1
  {
    var a, b := Abs(x1 - x0), Abs(y1 - y0);
    if a >= b {
      RoundDivSteps(b, a, i);
    } else {
      RoundDivSteps(a, b, i);
    }
  }

  lemma LineDistinct(x0: int, y0: int, x1: int, y1: int, i: nat, j: nat)
    requires i < j < LineLength(x0, y0, x1, y1)
    ensures LinePoint(x0, y0, x1, y1, i) != LinePoint(x0, y0, x1, y1, j)
  {
  }

  /** A line stays in the box its ends span. */
  lemma LineInBox(x0: int, y0: int, x1: int, y1: int, p: Point)
    requires p in LinePoints(x0, y0, x1, y1)
    ensures Between(p.x, x0, x1) && Between(p.y, y0, y1)
  {
    var i: nat :| i < LineLength(x0, y0, x1, y1) && p == LinePoint(x0, y0, x1, y1, i);
    var a, b := Abs(x1 - x0), Abs(y1 - y0);
    if a >= b && a > 0 {
      RoundDivInRange(b, a, i);
    } else if a < b {
      RoundDivInRange(a, b, i);
    }
  }

  /** Every pixel is within half a pixel, on the shorter axis, of the ideal line through the two
      ends; both sides are multiplied by twice the length of the longer axis. */
  lemma LineHalfPixel(x0: int, y0: int, x1: int, y1: int, p: Point)
    requires p in LinePoints(x0, y0, x1, y1)
    ensures 2 * Abs((p.y - y0) * (x1 - x0) - (p.x - x0) * (y1 - y0)) <= Max(Abs(x1 - x0), Abs(y1 - y0))
  {
    var i: nat :| i < LineLength(x0, y0, x1, y1) && p == LinePoint(x0, y0, x1, y1, i);
    var dx, dy := x1 - x0, y1 - y0;
    var a, b := Abs(dx), Abs(dy);
    assert dx == Sign(dx) * a || a == 0;
    if a >= b && a > 0 {
      var q := RoundDiv(b * i, a);
      RoundDivNearest(b * i, a);
      SignedCross(Sign(dx), Sign(dy), a, b, i, q);
    } else if a < b {
      var q := RoundDiv(a * i, b);
      RoundDivNearest(a * i, b);
      SignedCross(Sign(dx), Sign(dy), a, b, q, i);
    }
  }

  lemma SignedCross(sx: int, sy: int, a: nat, b: nat, i: int, j: int)
    requires (sx == 1 || sx == -1) && (sy == 1 || sy == -1)
    ensures Abs((sy * j) * (sx * a) - (sx * i) * (sy * b)) == Abs(j * a - b * i)
  {
  }

  // ---- the running error of the line loop ----

  /** The error term when pixel `i` is drawn: what the longer axis gained on the shorter. */
  function LineError(a: nat, b: nat, i: nat): int {
    if a == 0 && b == 0 then 0
    else if a >= b then a * (RoundDiv(b * i, a) + 1) - b * (i + 1)
    else a * (i + 1) - b * (RoundDiv(a * i, b) + 1)
  }

  /** Along the longer axis the error says always to step, and along the other exactly when the
      rounded distance grows. */
  lemma FlatStep(a: nat, b: nat, i: nat)
    requires 0 < a && b <= a
    ensures var e2 := 2 * (a * (RoundDiv(b * i, a) + 1) - b * (i + 1));
            && 0 <= e2 + b
            && RoundDiv(b * (i + 1), a) == RoundDiv(b * i, a) + if e2 <= a then 1 else 0
  {
    var q := RoundDiv(b * i, a);
    RoundDivNearest(b * i, a);
    MulDist(q, 1, a);
    MulDist(i, 1, b);
    if 2 * (a * (q + 1) - b * (i + 1)) <= a {
      RoundDivIs(b * (i + 1), a, q + 1);
    } else {
      RoundDivIs(b * (i + 1), a, q);
    }
  }

  lemma SteepStep(a: nat, b: nat, i: nat)
    requires a < b
    ensures var e2 := 2 * (a * (i + 1) - b * (RoundDiv(a * i, b) + 1));
            && e2 <= a
            && RoundDiv(a * (i + 1), b) == RoundDiv(a * i, b) + if 0 <= e2 + b then 1 else 0
  {
    var q := RoundDiv(a * i, b);
    RoundDivNearest(a * i, b);
    MulDist(q, 1, b);
    MulDist(i, 1, a);
    if 0 <= 2 * (a * (i + 1) - b * (q + 1)) + b {
      RoundDivIs(a * (i + 1), b, q + 1);
    } else {
      RoundDivIs(a * (i + 1), b, q);
    }
  }

  /** The loop's variables when pixel `i` is about to be drawn. */
  ghost predicate AtPixel(x0: int, y0: int, x1: int, y1: int, i: nat, x: int, y: int, err: int) {
    && Point(x, y) == LinePoint(x0, y0, x1, y1, i)
    && err == LineError(Abs(x1 - x0), Abs(y1 - y0), i)
  }

  /** The two tests of the loop step to the next pixel, and keep the error term. */
  lemma LineNext(x0: int, y0: int, x1: int, y1: int, i: nat, x: int, y: int, err: int, right: bool, down: bool)
    requires i + 1 < LineLength(x0, y0, x1, y1) && AtPixel(x0, y0, x1, y1, i, x, y, err)
    requires right == (2 * err + Abs(y1 - y0) >= 0) && down == (2 * err <= Abs(x1 - x0))
    ensures AtPixel(x0, y0, x1, y1, i + 1,
                    x + (if right then Sign(x1 - x0) else 0), y + (if down then Sign(y1 - y0) else 0),
                    err - (if right then Abs(y1 - y0) else 0) + (if down then Abs(x1 - x0) else 0))
  {
    if Abs(x1 - x0) >= Abs(y1 - y0) {
      FlatNext(x0, y0, x1, y1, i, x, y, err, right, down);
    } else {
      SteepNext(x0, y0, x1, y1, i, x, y, err, right, down);
    }
  }

  lemma FlatNext(x0: int, y0: int, x1: int, y1: int, i: nat, x: int, y: int, err: int, right: bool, down: bool)
    requires i + 1 < LineLength(x0, y0, x1, y1) && AtPixel(x0, y0, x1, y1, i, x, y, err)
    requires right == (2 * err + Abs(y1 - y0) >= 0) && down == (2 * err <= Abs(x1 - x0))
    requires Abs(x1 - x0) >= Abs(y1 - y0)
    ensures AtPixel(x0, y0, x1, y1, i + 1,
                    x + (if right then Sign(x1 - x0) else 0), y + (if down then Sign(y1 - y0) else 0),
                    err - (if right then Abs(y1 - y0) else 0) + (if down then Abs(x1 - x0) else 0))
  {
    var a, b := Abs(x1 - x0), Abs(y1 - y0);
    FlatStep(a, b, i);
    MulDist(RoundDiv(b * i, a) + 1, 1, a);
    MulDist(i + 1, 1, b);
  }

  lemma SteepNext(x0: int, y0: int, x1: int, y1: int, i: nat, x: int, y: int, err: int, right: bool, down: bool)
    requires i + 1 < LineLength(x0, y0, x1, y1) && AtPixel(x0, y0, x1, y1, i, x, y, err)
    requires right == (2 * err + Abs(y1 - y0) >= 0) && down == (2 * err <= Abs(x1 - x0))
    requires Abs(x1 - x0) < Abs(y1 - y0)
    ensures AtPixel(x0, y0, x1, y1, i + 1,
                    x + (if right then Sign(x1 - x0) else 0), y + (if down then Sign(y1 - y0) else 0),
                    err - (if right then Abs(y1 - y0) else 0) + (if down then Abs(x1 - x0) else 0))
  {
    var a, b := Abs(x1 - x0), Abs(y1 - y0);
    SteepStep(a, b, i);
    MulDist(RoundDiv(a * i, b) + 1, 1, b);
    MulDist(i + 1, 1, a);
  }

  lemma LineBegins(x0: int, y0: int, x1: int, y1: int)
    ensures AtPixel(x0, y0, x1, y1, 0, x0, y0, Abs(x1 - x0) - Abs(y1 - y0))
  {
    LineEnds(x0, y0, x1, y1);
    var a, b := Abs(x1 - x0), Abs(y1 - y0);
    if a >= b && a > 0 {
      RoundDivEnds(b, a);
    } else if a < b {
      RoundDivEnds(a, b);
    }
  }

  /** The line is at its end exactly when all its pixels are drawn. */
  lemma LineEndsOnce(x0: int, y0: int, x1: int, y1: int, i: nat)
    requires i < LineLength(x0, y0, x1, y1)
    ensures LinePoint(x0, y0, x1, y1, i) == Point(x1, y1) <==> i + 1 == LineLength(x0, y0, x1, y1)
  {
    LineEnds(x0, y0, x1, y1);
    if i + 1 < LineLength(x0, y0, x1, y1) {
      LineDistinct(x0, y0, x1, y1, i, LineLength(x0, y0, x1, y1) - 1);
    }
  }

  /** The first pixels of a line, in the order they are drawn. */
  ghost function LinePath(x0: int, y0: int, x1: int, y1: int, n: nat): (path: seq<Point>)
    ensures |path| == n && forall i :: 0 <= i < n ==> path[i] == LinePoint(x0, y0, x1, y1, i)
  {
    seq(n, i requires 0 <= i => LinePoint(x0, y0, x1, y1, i))
  }

  lemma PathGrows(x0: int, y0: int, x1: int, y1: int, n: nat)
    ensures LinePath(x0, y0, x1, y1, n + 1) == LinePath(x0, y0, x1, y1, n) + [LinePoint(x0, y0, x1, y1, n)]
  {
  }

  lemma LineGrows(x0: int, y0: int, x1: int, y1: int, n: nat)
    ensures LineTo(x0, y0, x1, y1, n + 1) == LineTo(x0, y0, x1, y1, n) + iset{LinePoint(x0, y0, x1, y1, n)}
  {
    var p := LinePoint(x0, y0, x1, y1, n);
    assert p in LineTo(x0, y0, x1, y1, n + 1);
    forall q | q in LineTo(x0, y0, x1, y1, n)
      ensures q in LineTo(x0, y0, x1, y1, n + 1)
    {
      var i: nat :| i < n && q == LinePoint(x0, y0, x1, y1, i);
    }
  }
}
