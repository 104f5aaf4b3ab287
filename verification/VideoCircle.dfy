/** The circle and the disc the card draws. */
module VideoCircle {
  import opened Words
  import opened VideoMemory
  import opened VideoShapes

  /** x is the integer nearest to the square root of n. */
  predicate NearestRoot(x: nat, n: int) {
    if n == 0 then x == 0 else (2 * x - 1) * (2 * x - 1) < 4 * n < (2 * x + 1) * (2 * x + 1)
  }

  /** A point of the first octant is on the circle of radius r when its longer side is the
      nearest integer to the circle's exact one. */
  predicate Octant(r: nat, x: nat, y: nat) { y <= x && NearestRoot(x, r * r - y * y) }

  predicate OnCircle(r: nat, u: nat, v: nat) {
    if u >= v then Octant(r, u, v) else Octant(r, v, u)
  }

  ghost function CirclePoints(cx: int, cy: int, r: int): iset<Point> {
    iset p: Point | r >= 0 && OnCircle(r, Abs(p.x - cx), Abs(p.y - cy))
  }

  /** Some point of the outline, on a row v away from the centre's, is at least u out. */
  ghost predicate Enclosed(r: nat, u: nat, v: nat) {
    exists out: nat :: u <= out && OnCircle(r, out, v)
  }

  /** On each row, everything between the outline's extreme pixels. */
  ghost function DiscPoints(cx: int, cy: int, r: int): iset<Point> {
    iset p: Point | r >= 0 && Enclosed(r, Abs(p.x - cx), Abs(p.y - cy))
  }

  /** What the loop's error term keeps, and with it the two bounds on a plotted point. */
  ghost predicate CircleStep(r: nat, x: int, y: int, err: int) {
    && 0 <= y && -1 <= x <= r && (0 <= x || 0 < y)
    && err == x * x - x + (y + 1) * (y + 1) - r * r
    && r * r <= x * x + x + y * y
    && (y <= x ==> r == 0 || x * x - x + y * y < r * r)
  }

  /** The two bounds, without the square root. */
  ghost predicate Bounds(r: nat, x: nat, y: nat) {
    && y <= x
    && r * r <= x * x + x + y * y
    && (if r == 0 then x == 0 else x * x - x + y * y < r * r)
  }

  lemma OctantBounds(r: nat, x: nat, y: nat)
    ensures Octant(r, x, y) <==> Bounds(r, x, y)
  {
    assert (2 * x - 1) * (2 * x - 1) == 4 * (x * x - x) + 1;
    assert (2 * x + 1) * (2 * x + 1) == 4 * (x * x + x) + 1;
    if y <= x {
      SquareOrder(x, y);
      if r == 0 && x > 0 {
        SquareOrder(2 * x - 1, 1);
      }
    }
  }

  lemma SquareOrder(a: nat, b: nat)
    requires b <= a
    ensures b * b <= a * a
  {
    MulMono(b, a, b);
    MulMono(b, a, a);
  }

  lemma StepIsOctant(r: nat, x: int, y: int, err: int)
    requires CircleStep(r, x, y, err) && y <= x
    ensures Octant(r, x, y)
  {
    OctantBounds(r, x, y);
  }

  lemma CircleFirst(r: nat)
    ensures CircleStep(r, r, 0, 1 - r)
  {
    if r > 0 {
      assert r * r - r < r * r;
    }
  }

  /** The loop's step: down a row, and in a column when the error says so. */
  lemma CircleNext(r: nat, x: nat, y: nat, err: int)
    requires CircleStep(r, x, y, err) && y <= x
    ensures err < 0 ==> CircleStep(r, x, y + 1, err + 2 * (y + 1) + 1)
    ensures err >= 0 ==> CircleStep(r, x - 1, y + 1, err + 2 * (y + 1 - (x - 1)) + 1)
  {
    assert (y + 1) * (y + 1) == y * y + 2 * y + 1;
    assert (y + 2) * (y + 2) == y * y + 4 * y + 4;
    assert (x - 1) * (x - 1) == x * x - 2 * x + 1;
  }

  /** A row meets the first octant at one place. */
  lemma OctantUnique(r: nat, x: nat, z: nat, y: nat)
    requires Octant(r, x, y) && Octant(r, z, y)
    ensures x == z
  {
    if x < z {
      RootUnique(x, z, r * r - y * y);
    } else if z < x {
      RootUnique(z, x, r * r - y * y);
    }
  }

  lemma RootUnique(x: nat, z: nat, n: int)
    requires NearestRoot(x, n) && x < z
    ensures !NearestRoot(z, n)
  {
    SquareOrder(2 * z - 1, 2 * x + 1);
  }

  /** When the loop ends no row further out meets the first octant. */
  lemma OctantEnds(r: nat, x: int, y: nat, err: int, u: nat, v: nat)
    requires CircleStep(r, x, y, err) && x < y <= v
    ensures !Octant(r, u, v)
  {
    OctantBounds(r, u, v);
    if v <= u {
      SquareOrder(v, y);
      Rectangles(x, u);
    }
  }

  lemma Rectangles(x: int, u: nat)
    requires -1 <= x < u
    ensures x * x + x <= u * u - u
  {
    if x >= 0 {
      MulMono(x + 1, u, u - 1);
      MulMono(x, u - 1, x + 1);
    }
  }

  /** A circle reaches no row beyond its radius. */
  lemma NoRowOutside(r: nat, u: nat, v: nat)
    requires r < v
    ensures !OnCircle(r, u, v)
  {
    OctantBounds(r, Max(u, v), Min(u, v));
    Rectangles(r, Max(u, v));
    SquareOrder(Min(u, v), 0);
  }

  /** The nearest integer to a square root, found by going up. */
  ghost function Root(n: nat, from: nat): (x: nat)
    requires from > 0 ==> (2 * from - 1) * (2 * from - 1) < 4 * n
    ensures NearestRoot(x, n)
    decreases 4 * n + 4 - from
  {
    assert (2 * from - 1) * (2 * from - 1) == 4 * (from * from) - 4 * from + 1;
    assert (2 * from + 1) * (2 * from + 1) == 4 * (from * from) + 4 * from + 1;
    if n == 0 then 0
    else if 4 * n < (2 * from + 1) * (2 * from + 1) then from
    else Root(n, from + 1)
  }

  /** The smallest y whose square reaches n. */
  ghost function Reach(n: int, from: nat): (y: nat)
    requires from > 0 ==> Square(from - 1) < n
    ensures n <= Square(y) && (y > 0 ==> Square(y - 1) < n)
    decreases n + 1 - from
  {
    SquareOrder(from, 0);
    MulMono(1, Max(from, 1), from);
    if n <= Square(from) then from else Reach(n, from + 1)
  }

  function Square(x: int): int { x * x }

  /** Every row from the centre out to the radius has a pixel of the outline. */
  lemma RowReached(r: nat, v: nat) returns (u: nat)
    requires v <= r
    ensures OnCircle(r, u, v)
  {
    SquareOrder(r, v);
    var n := r * r - v * v;
    u := Root(n, 0);
    if u < v {
      assert (2 * u + 1) * (2 * u + 1) == 4 * (u * u) + 4 * u + 1;
      u := SteepColumn(r, v, u);
    }
  }

  /** On a steep row the outline is in a column of the octant, and one such exists because
      consecutive squares are never further apart than the octant is wide. */
  lemma SteepColumn(r: nat, v: nat, u: nat) returns (y: nat)
    requires u < v <= r && NearestRoot(u, r * r - v * v)
    ensures y < v && Octant(r, v, y)
  {
    var n := r * r - v * v;
    RootAtMost(u, n);
    Rectangles(u, v);
    y := Reach(n - v, 0);
    ReachBelow(n - v, y, v);
    assert y > 0 ==> Square(y - 1) == y * y - 2 * y + 1;
    SquareOrder(r, v);
    MulMono(1, r, r);
    OctantBounds(r, v, y);
  }

  lemma RootAtMost(u: nat, n: int)
    requires NearestRoot(u, n)
    ensures n <= u * u + u
  {
    assert (2 * u + 1) * (2 * u + 1) == 4 * (u * u) + 4 * u + 1;
  }

  lemma ReachBelow(m: int, y: nat, v: nat)
    requires 0 < v && m <= v * v - 2 * v && (y > 0 ==> Square(y - 1) < m)
    ensures y < v
  {
    assert Square(v - 1) == v * v - 2 * v + 1;
    if y >= v {
      SquareOrder(y - 1, v - 1);
      assert false;
    }
  }

  /** The furthest out the outline gets on a row. */
  ghost function Extent(r: nat, v: nat, from: nat): (u: nat)
    requires exists out: nat :: out <= from && OnCircle(r, out, v)
    ensures OnCircle(r, u, v) && forall out: nat :: out <= from && OnCircle(r, out, v) ==> out <= u
  {
    if OnCircle(r, from, v) then from else Extent(r, v, from - 1)
  }

  /** Each row of the disc, from one radius above the centre to one below, is filled exactly from
      the outline's leftmost pixel on it to its rightmost. */
  lemma DiscRow(cx: int, cy: int, r: nat, y: int) returns (u: nat)
    requires Abs(y - cy) <= r
    ensures Point(cx - u, y) in CirclePoints(cx, cy, r) && Point(cx + u, y) in CirclePoints(cx, cy, r)
    ensures forall x :: Point(x, y) in CirclePoints(cx, cy, r) ==> Between(x, cx - u, cx + u)
    ensures forall x :: Point(x, y) in DiscPoints(cx, cy, r) <==> Between(x, cx - u, cx + u)
  {
    var v := Abs(y - cy);
    var some := RowReached(r, v);
    forall out: nat | OnCircle(r, out, v)
      ensures out <= r
    {
      if out > r {
        NoRowOutside(r, v, out);
      }
    }
    u := Extent(r, v, r);
    forall x
      ensures Point(x, y) in DiscPoints(cx, cy, r) <==> Abs(x - cx) <= u
    {
      if Enclosed(r, Abs(x - cx), v) {
        var out: nat :| Abs(x - cx) <= out && OnCircle(r, out, v);
      }
    }
  }

  /** Beyond the radius there is nothing. */
  lemma NothingOutside(cx: int, cy: int, r: nat, p: Point)
    requires r < Abs(p.y - cy)
    ensures p !in CirclePoints(cx, cy, r) && p !in DiscPoints(cx, cy, r)
  {
    NoRowOutside(r, Abs(p.x - cx), Abs(p.y - cy));
    if Enclosed(r, Abs(p.x - cx), Abs(p.y - cy)) {
      var out: nat :| Abs(p.x - cx) <= out && OnCircle(r, out, Abs(p.y - cy));
      NoRowOutside(r, out, Abs(p.y - cy));
    }
  }

  // ---- step by step ----

  /** The eight pixels one step of the outline plots, and the four rows one step of the disc fills. */
  ghost function Eight(cx: int, cy: int, x: int, y: int): iset<Point> {
    iset p: Point | (Abs(p.x - cx) == x && Abs(p.y - cy) == y) || (Abs(p.x - cx) == y && Abs(p.y - cy) == x)
  }

  ghost predicate InFour(cx: int, cy: int, x: int, y: int, p: Point) {
    (Abs(p.y - cy) == y && Abs(p.x - cx) <= x) || (Abs(p.y - cy) == x && Abs(p.x - cx) <= y)
  }

  ghost function Four(cx: int, cy: int, x: int, y: int): iset<Point> {
    iset p: Point | InFour(cx, cy, x, y, p)
  }

  /** What the steps before row y have plotted. */
  ghost function CircleTo(cx: int, cy: int, r: nat, y: nat): iset<Point> {
    iset p: Point | OnCircle(r, Abs(p.x - cx), Abs(p.y - cy)) && Min(Abs(p.x - cx), Abs(p.y - cy)) < y
  }

  ghost predicate InDiscTo(cx: int, cy: int, r: nat, y: nat, p: Point) {
    exists u: nat, v: nat :: v < y && Octant(r, u, v) && InFour(cx, cy, u, v, p)
  }

  ghost function DiscTo(cx: int, cy: int, r: nat, y: nat): iset<Point> {
    iset p: Point | InDiscTo(cx, cy, r, y, p)
  }

  lemma CircleGrows(cx: int, cy: int, r: nat, x: nat, y: nat)
    requires Octant(r, x, y)
    ensures CircleTo(cx, cy, r, y + 1) == CircleTo(cx, cy, r, y) + Eight(cx, cy, x, y)
  {
    forall p: Point | OnCircle(r, Abs(p.x - cx), Abs(p.y - cy)) && Min(Abs(p.x - cx), Abs(p.y - cy)) == y
      ensures Max(Abs(p.x - cx), Abs(p.y - cy)) == x
    {
      OctantUnique(r, x, Max(Abs(p.x - cx), Abs(p.y - cy)), y);
    }
  }

  lemma DiscGrows(cx: int, cy: int, r: nat, x: nat, y: nat)
    requires Octant(r, x, y)
    ensures DiscTo(cx, cy, r, y + 1) == DiscTo(cx, cy, r, y) + Four(cx, cy, x, y)
  {
    forall p: Point
      ensures InDiscTo(cx, cy, r, y + 1, p) <==> InDiscTo(cx, cy, r, y, p) || InFour(cx, cy, x, y, p)
    {
      if InDiscTo(cx, cy, r, y + 1, p) {
        var u: nat, v: nat :| v < y + 1 && Octant(r, u, v) && InFour(cx, cy, u, v, p);
        if v == y {
          OctantUnique(r, x, u, y);
        }
      }
    }
  }

  lemma CircleDone(cx: int, cy: int, r: nat, x: int, y: nat, err: int)
    requires CircleStep(r, x, y, err) && x < y
    ensures CircleTo(cx, cy, r, y) == CirclePoints(cx, cy, r)
  {
    forall p: Point | OnCircle(r, Abs(p.x - cx), Abs(p.y - cy))
      ensures Min(Abs(p.x - cx), Abs(p.y - cy)) < y
    {
      var u, v := Max(Abs(p.x - cx), Abs(p.y - cy)), Min(Abs(p.x - cx), Abs(p.y - cy));
      if v >= y {
        OctantEnds(r, x, y, err, u, v);
      }
    }
  }

  lemma DiscDone(cx: int, cy: int, r: nat, x: int, y: nat, err: int)
    requires CircleStep(r, x, y, err) && x < y
    ensures DiscTo(cx, cy, r, y) == DiscPoints(cx, cy, r)
  {
    forall p: Point
      ensures InDiscTo(cx, cy, r, y, p) <==> Enclosed(r, Abs(p.x - cx), Abs(p.y - cy))
    {
      DiscPoint(cx, cy, r, x, y, err, p);
    }
  }

  lemma DiscPoint(cx: int, cy: int, r: nat, x: int, y: nat, err: int, p: Point)
    requires CircleStep(r, x, y, err) && x < y
    ensures InDiscTo(cx, cy, r, y, p) <==> Enclosed(r, Abs(p.x - cx), Abs(p.y - cy))
  {
    var dx, dy := Abs(p.x - cx), Abs(p.y - cy);
    if InDiscTo(cx, cy, r, y, p) {
      var u: nat, v: nat :| v < y && Octant(r, u, v) && InFour(cx, cy, u, v, p);
      if dy == v && dx <= u {
        assert OnCircle(r, u, dy);
      } else {
        assert OnCircle(r, v, dy);
      }
    }
    if Enclosed(r, dx, dy) {
      var out: nat :| dx <= out && OnCircle(r, out, dy);
      var u, v := Max(out, dy), Min(out, dy);
      if v >= y {
        OctantEnds(r, x, y, err, u, v);
      }
      assert InFour(cx, cy, u, v, p);
    }
  }
}
