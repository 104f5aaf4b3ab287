/** The filled triangle the card draws. */
module VideoTriangle {
  import opened Words
  import opened VideoMemory
  import opened VideoShapes

  /** Division as C does it, towards zero. */
  function Truncated(n: int, d: int): int
    requires d > 0
  {
    if n >= 0 then n / d else -(-n / d)
  }

  /** x on an edge at row y, as the program computes it. */
  function EdgeX(a: Point, b: Point, y: int): int
    requires a.y <= y <= b.y
  {
    if b.y == a.y then a.x
    else
      var d := b.y - a.y;
      var num := (y - a.y) * (b.x - a.x) * 2 + d;
      a.x + Truncated(if num >= 0 then num else num - 2 * d + 1, 2 * d)
  }

  predicate Sorted(lo: Point, mid: Point, hi: Point) { lo.y <= mid.y <= hi.y }

  /** The three vertices from top to bottom, by the program's three conditional swaps. */
  function ByRow(p: Point, q: Point, r: Point): (s: (Point, Point, Point))
    ensures Sorted(s.0, s.1, s.2)
  {
    var (p1, q1) := if q.y < p.y then (q, p) else (p, q);
    var (p2, r2) := if r.y < p1.y then (r, p1) else (p1, r);
    var (q3, r3) := if r2.y < q1.y then (r2, q1) else (q1, r2);
    (p2, q3, r3)
  }

  /** The edge a row meets besides the one from top to bottom. */
  function BentX(lo: Point, mid: Point, hi: Point, y: int): int
    requires Sorted(lo, mid, hi) && lo.y <= y <= hi.y
  {
    if y < mid.y then EdgeX(lo, mid, y) else EdgeX(mid, hi, y)
  }

  predicate InTriangle(lo: Point, mid: Point, hi: Point, p: Point)
    requires Sorted(lo, mid, hi)
  {
    lo.y <= p.y <= hi.y && Between(p.x, EdgeX(lo, hi, p.y), BentX(lo, mid, hi, p.y))
  }

  /** On each row, the pixels between the triangle's two edges. */
  ghost function TrianglePoints(p: Point, q: Point, r: Point): iset<Point> {
    var s := ByRow(p, q, r);
    iset t: Point | InTriangle(s.0, s.1, s.2, t)
  }

  lemma TruncatedIsFloor(num: int, d: int)
    requires d > 0
    ensures Truncated(if num >= 0 then num else num - d + 1, d) == num / d
  {
    if num < 0 {
      var q := num / d;
      DivMod(num, d);
      DivUnique(d - 1 - num, d, -q, d - 1 - num % d);
    }
  }

  /** An edge's x is the exact one rounded to nearest, halves up. */
  lemma EdgeRounds(a: Point, b: Point, y: int)
    requires a.y <= y <= b.y && a.y < b.y
    ensures EdgeX(a, b, y) == a.x + RoundDiv((y - a.y) * (b.x - a.x), b.y - a.y)
  {
    var d := b.y - a.y;
    TruncatedIsFloor((y - a.y) * (b.x - a.x) * 2 + d, 2 * d);
  }

  lemma RoundDivExact(w: int, d: int)
    requires d > 0
    ensures RoundDiv(0 * w, d) == 0 && RoundDiv(d * w, d) == w
  {
    RoundDivIs(0, d, 0);
    MulCommutes(d, w);
    RoundDivIs(w * d, d, w);
  }

  lemma EdgeEnds(a: Point, b: Point)
    requires a.y <= b.y
    ensures EdgeX(a, b, a.y) == a.x
    ensures a.y < b.y ==> EdgeX(a, b, b.y) == b.x
  {
    if a.y < b.y {
      EdgeRounds(a, b, a.y);
      EdgeRounds(a, b, b.y);
      RoundDivExact(b.x - a.x, b.y - a.y);
    }
  }

  lemma MulCommutes(a: int, b: int)
    ensures a * b == b * a
  {
  }

  lemma EdgeInBox(a: Point, b: Point, y: int)
    requires a.y <= y <= b.y
    ensures Between(EdgeX(a, b, y), a.x, b.x)
  {
    if a.y < b.y {
      EdgeRounds(a, b, y);
      RoundDivBetween(y - a.y, b.x - a.x, b.y - a.y);
    }
  }

  lemma RoundDivBetween(i: nat, w: int, d: nat)
    requires 0 < d && i <= d
    ensures Between(RoundDiv(i * w, d), 0, w)
  {
    var q := RoundDiv(i * w, d);
    RoundDivNearest(i * w, d);
    if w >= 0 {
      MulMono(i, d, w);
    } else {
      MulMono(i, d, -w);
      assert i * w == -(i * -w) && d * w == -(d * -w);
    }
    MulCommutes(d, w);
    assert 0 * d == 0;
    if q < Min(0, w) {
      Further(q, Min(0, w), 1, d);
    } else if q > Max(0, w) {
      Further(Max(0, w), q, 1, d);
    }
  }

  // ---- what the triangle covers ----

  /** A triangle that spans more than one row contains its vertices. */
  lemma ContainsVertices(p: Point, q: Point, r: Point)
    requires !(p.y == q.y == r.y)
    ensures p in TrianglePoints(p, q, r) && q in TrianglePoints(p, q, r) && r in TrianglePoints(p, q, r)
  {
    var (lo, mid, hi) := ByRow(p, q, r);
    EdgeEnds(lo, mid);
    EdgeEnds(mid, hi);
    EdgeEnds(lo, hi);
    assert InTriangle(lo, mid, hi, lo) && InTriangle(lo, mid, hi, mid) && InTriangle(lo, mid, hi, hi);
  }

  /** A triangle stays in the box its vertices span. */
  lemma InsideBox(p: Point, q: Point, r: Point, t: Point)
    requires t in TrianglePoints(p, q, r)
    ensures Min(p.x, Min(q.x, r.x)) <= t.x <= Max(p.x, Max(q.x, r.x))
    ensures Min(p.y, Min(q.y, r.y)) <= t.y <= Max(p.y, Max(q.y, r.y))
  {
    var (lo, mid, hi) := ByRow(p, q, r);
    EdgeInBox(lo, hi, t.y);
    if t.y < mid.y {
      EdgeInBox(lo, mid, t.y);
    } else {
      EdgeInBox(mid, hi, t.y);
    }
  }

  /** All of a row's pixels between two of the triangle's are the triangle's. */
  lemma RowsUnbroken(p: Point, q: Point, r: Point, x0: int, x1: int, x: int, y: int)
    requires Point(x0, y) in TrianglePoints(p, q, r) && Point(x1, y) in TrianglePoints(p, q, r)
    requires x0 <= x <= x1
    ensures Point(x, y) in TrianglePoints(p, q, r)
  {
  }

  // ---- the order of the vertices does not matter ----

  lemma SwapFirst(p: Point, q: Point, r: Point)
    requires !(p.y == q.y == r.y)
    ensures TrianglePoints(p, q, r) == TrianglePoints(q, p, r)
  {
    var (lo, mid, hi) := ByRow(p, q, r);
    var (lo', mid', hi') := ByRow(q, p, r);
    SameVertices(lo, mid, hi, lo', mid', hi');
  }

  lemma SwapLast(p: Point, q: Point, r: Point)
    requires !(p.y == q.y == r.y)
    ensures TrianglePoints(p, q, r) == TrianglePoints(p, r, q)
  {
    var (lo, mid, hi) := ByRow(p, q, r);
    var (lo', mid', hi') := ByRow(p, r, q);
    SameVertices(lo, mid, hi, lo', mid', hi');
  }

  /** Two sorted orders of the same three vertices give the same rows. */
  lemma SameVertices(lo: Point, mid: Point, hi: Point, lo': Point, mid': Point, hi': Point)
    requires Sorted(lo, mid, hi) && Sorted(lo', mid', hi') && lo.y < hi.y
    requires (lo', mid', hi') == (lo, mid, hi)
          || ((lo', mid', hi') == (mid, lo, hi) && lo.y == mid.y)
          || ((lo', mid', hi') == (lo, hi, mid) && mid.y == hi.y)
    ensures (iset t: Point | InTriangle(lo, mid, hi, t)) == (iset t: Point | InTriangle(lo', mid', hi', t))
  {
    forall t: Point
      ensures InTriangle(lo, mid, hi, t) <==> InTriangle(lo', mid', hi', t)
    {
      if lo.y <= t.y <= hi.y {
        EdgeEnds(lo, hi);
        EdgeEnds(lo, mid);
        EdgeEnds(mid, hi);
      }
    }
  }

  ghost predicate OrdersAgree(p: Point, q: Point, r: Point) {
    && TrianglePoints(p, q, r) == TrianglePoints(q, p, r) == TrianglePoints(p, r, q)
    && TrianglePoints(p, q, r) == TrianglePoints(r, q, p) == TrianglePoints(q, r, p) == TrianglePoints(r, p, q)
  }

  /** The same pixels for all six orders of the vertices. */
  lemma AnyOrder(p: Point, q: Point, r: Point)
    requires !(p.y == q.y == r.y)
    ensures OrdersAgree(p, q, r)
  {
    SwapFirst(p, q, r);
    SwapLast(p, q, r);
    SwapLast(q, p, r);
    SwapFirst(p, r, q);
    SwapFirst(q, r, p);
  }

  // ---- shared edges ----

  /** A triangle contains, on every row of an edge that is not horizontal, the pixel nearest to
      that edge. Two triangles that share the edge therefore both do, and leave no crack. */
  lemma ContainsEdge(a: Point, b: Point, c: Point, y: int)
    requires a.y < b.y && a.y <= y <= b.y
    ensures Point(EdgeX(a, b, y), y) in TrianglePoints(a, b, c)
  {
    var (lo, mid, hi) := ByRow(a, b, c);
    EdgeEnds(lo, mid);
    EdgeEnds(mid, hi);
    EdgeEnds(lo, hi);
    EdgeEnds(a, b);
    assert InTriangle(lo, mid, hi, Point(EdgeX(a, b, y), y));
  }

  lemma SharedEdge(a: Point, b: Point, c: Point, d: Point, y: int)
    requires a.y < b.y && a.y <= y <= b.y
    ensures var p := Point(EdgeX(a, b, y), y);
            && p in TrianglePoints(a, b, c) && p in TrianglePoints(b, a, c)
            && p in TrianglePoints(a, b, d) && p in TrianglePoints(b, a, d)
  {
    ContainsEdge(a, b, c, y);
    ContainsEdge(a, b, d, y);
    AnyOrder(a, b, c);
    AnyOrder(a, b, d);
  }

  /** A triangle on one row draws only between its first two vertices: it contains the third
      exactly when that lies between them. */
  lemma FlatTriangle(p: Point, q: Point, r: Point)
    requires p.y == q.y == r.y
    ensures TrianglePoints(p, q, r) == Span(p.x, q.x, p.y)
    ensures r in TrianglePoints(p, q, r) <==> Between(r.x, p.x, q.x)
  {
  }

  /** All six orders of the vertices give the same pixels exactly when the triangle spans more than one row or
      is a single point. */
  lemma OrderExactly(p: Point, q: Point, r: Point)
    ensures OrdersAgree(p, q, r) <==> !(p.y == q.y == r.y) || p == q == r
  {
    if !(p.y == q.y == r.y) {
      AnyOrder(p, q, r);
    } else {
      FlatTriangle(p, q, r);
      FlatTriangle(p, r, q);
      FlatTriangle(q, r, p);
      assert p in Span(p.x, q.x, p.y) && q in Span(p.x, q.x, p.y);
      assert r in Span(p.x, r.x, p.y);
    }
  }

  lemma FlatTriangleMissesVertex()
    ensures Point(5, 0) !in TrianglePoints(Point(0, 0), Point(1, 0), Point(5, 0))
    ensures Point(5, 0) in TrianglePoints(Point(0, 0), Point(5, 0), Point(1, 0))
  {
    FlatTriangle(Point(0, 0), Point(1, 0), Point(5, 0));
    FlatTriangle(Point(0, 0), Point(5, 0), Point(1, 0));
  }

  // ---- row by row ----

  ghost function TriangleTo(lo: Point, mid: Point, hi: Point, y: int): iset<Point>
    requires Sorted(lo, mid, hi)
  {
    iset p: Point | InTriangle(lo, mid, hi, p) && p.y < y
  }

  lemma TriangleGrows(lo: Point, mid: Point, hi: Point, y: int)
    requires Sorted(lo, mid, hi) && lo.y <= y <= hi.y
    ensures TriangleTo(lo, mid, hi, y + 1)
         == TriangleTo(lo, mid, hi, y) + Span(EdgeX(lo, hi, y), BentX(lo, mid, hi, y), y)
  {
  }

  lemma TriangleBegins(m: Memory, t: Target, lo: Point, mid: Point, hi: Point, color: bv8)
    requires IsDepth(t.bpp) && Sorted(lo, mid, hi)
    ensures Painted(m, m, t, TriangleTo(lo, mid, hi, Max(0, lo.y)), color)
  {
    PaintNothing(m, t, TriangleTo(lo, mid, hi, Max(0, lo.y)), color);
  }

  lemma TriangleDone(before: Memory, after: Memory, t: Target, p: Point, q: Point, r: Point, y: int, color: bv8)
    requires IsDepth(t.bpp)
    requires var (lo, mid, hi) := ByRow(p, q, r);
             (y > hi.y || y >= t.h) && Painted(before, after, t, TriangleTo(lo, mid, hi, y), color)
    ensures Painted(before, after, t, TrianglePoints(p, q, r), color)
  {
    var (lo, mid, hi) := ByRow(p, q, r);
    PaintClipped(before, after, t, TriangleTo(lo, mid, hi, y), TrianglePoints(p, q, r), color);
  }
}
