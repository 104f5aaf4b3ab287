/** The video card's drawing state and its drawing commands, as the program runs them. */
module VideoCard {
  import opened Words
  import opened VideoMemory
  import opened VideoShapes
  import opened VideoCircle
  import opened VideoTriangle

  class Card {
    const vram: array<bv8>
    const cfg: array<bv8>
    const psram: array?<bv8>
    var targetAddr: nat
    var targetStride: nat
    var targetW: nat
    var targetH: nat
    var targetBpp: nat
    var color: bv8

    ghost predicate Valid()
      reads this
    {
      && vram.Length == VRAM_SIZE && cfg.Length == CFG_SIZE && vram != cfg
      && (psram != null ==> psram.Length == PSRAM_SIZE && psram != vram && psram != cfg)
      && targetAddr < ADDRESS_SPACE && targetStride < 0x1_0000 && targetW < 0x1_0000 && targetH < 0x1_0000
      && IsDepth(targetBpp)
    }

    constructor (withPsram: bool)
      ensures Valid() && fresh(vram) && fresh(cfg) && (psram != null ==> fresh(psram))
      ensures (psram != null) == withPsram
      ensures Aim() == Target(0, 0, 0, 0, 8, withPsram) && color == 15
    {
      vram := new bv8[VRAM_SIZE];
      cfg := new bv8[CFG_SIZE];
      if withPsram {
        psram := new bv8[PSRAM_SIZE];
      } else {
        psram := null;
      }
      targetAddr, targetStride, targetW, targetH, targetBpp, color := 0, 0, 0, 0, 8, 15;
    }

    /** Where drawing goes now. */
    ghost function Aim(): Target
      reads this
    {
      Target(targetAddr, targetStride, targetW, targetH, targetBpp, psram != null)
    }

    // ---- the address space ----

    function Peek(addr: nat): bv8
      requires Valid()
      reads this, vram, cfg, psram
    {
      var a := addr % ADDRESS_SPACE;
      if a < VRAM_SIZE then vram[a]
      else if a - CFG_BASE < CFG_SIZE then cfg[a - CFG_BASE]
      else if a >= PSRAM_BASE && psram != null then psram[a - PSRAM_BASE]
      else 0
    }

    ghost function Contents(): (m: Memory)
      requires Valid()
      reads this, vram, cfg, psram
    {
      seq(ADDRESS_SPACE, a requires 0 <= a < ADDRESS_SPACE && Valid() reads this, vram, cfg, psram => Peek(a))
    }

    method Poke(addr: nat, v: bv8)
      requires Valid()
      modifies vram, cfg, psram
      ensures Contents() == Stored(old(Contents()), psram != null, addr % ADDRESS_SPACE, v)
    {
      var a := addr % ADDRESS_SPACE;
      if a < VRAM_SIZE {
        vram[a] := v;
      } else if a - CFG_BASE < CFG_SIZE {
        cfg[a - CFG_BASE] := v;
      } else if a >= PSRAM_BASE && psram != null {
        psram[a - PSRAM_BASE] := v;
      }
    }

    // ---- drawing ----

    lemma PeekIs(addr: nat)
      requires Valid()
      ensures Peek(addr) == Contents()[addr % ADDRESS_SPACE]
    {
    }

    /** A field of a byte replaced. */
    method PokeField(addr: nat, shift: nat, v: bv8)
      requires Valid()
      modifies vram, cfg, psram
      ensures var m, a := old(Contents()), addr % ADDRESS_SPACE;
              Contents() == Stored(m, psram != null, a, WithField(m[a], targetBpp, shift, v))
    {
      PeekIs(addr);
      var b := Peek(addr);
      Poke(addr, WithField(b, targetBpp, shift, v));
    }

    /** One pixel masked into its byte. */
    method Plot(x: nat, y: nat, col: bv8)
      requires Valid() && Inside(Aim(), Point(x, y))
      modifies vram, cfg, psram
      ensures Contents() == Plotted(old(Contents()), Aim(), Point(x, y), col)
    {
      ghost var m, t, p := Contents(), Aim(), Point(x, y);
      PlottedByte(m, t, p, col);
      OffsetIsNat(t, p);
      var bit: nat := x * targetBpp;
      var a: nat := targetAddr + y * targetStride + bit / 8;
      assert a % ADDRESS_SPACE == AddressOf(t, p);
      if targetBpp == 8 {
        Poke(a, col);
      } else {
        var shift: nat := 8 - targetBpp - bit % 8;
        assert shift == PlaceOf(t, p);
        PokeField(a, shift, col);
      }
    }

    /** A pixel; one off the target is not drawn. */
    method PSet(x: int, y: int, col: bv8)
      requires Valid()
      modifies vram, cfg, psram
      ensures Painted(old(Contents()), Contents(), Aim(), iset{Point(x, y)}, col)
    {
      if x < 0 || y < 0 || x >= targetW || y >= targetH {
        PaintOutside(Contents(), Aim(), Point(x, y), col);
        return;
      }
      PaintOne(Contents(), Aim(), Point(x, y), col);
      Plot(x, y, col);
    }

    /** The colour of a pixel of an image of this depth anywhere in memory. */
    function PGet(base: nat, stride: nat, x: nat, y: nat, bpp: nat): (v: bv8)
      requires Valid() && IsDepth(bpp)
      reads this, vram, cfg, psram
      ensures v == Pixel(Contents(), Target(base, stride, x + 1, y + 1, bpp, psram != null), Point(x, y))
    {
      var bit := x * bpp;
      var b := Peek(base + y * stride + bit / 8);
      assert b == Contents()[(base + y * stride + bit / 8) % ADDRESS_SPACE];
      if bpp == 8 then
        WholeField(b);
        b
      else
        PlaceIsPlace(Target(base, stride, x + 1, y + 1, bpp, psram != null), Point(x, y));
        Field(b, bpp, 8 - bpp - bit % 8)
    }

    /** One more pixel, or row, of a shape: `done` was painted since `before`, now `all` is. */
    method AddPixel(x: int, y: int, col: bv8, ghost before: Memory, ghost done: iset<Point>, ghost all: iset<Point>)
      requires Valid() && Painted(before, Contents(), Aim(), done, col)
      requires all == done + iset{Point(x, y)}
      modifies vram, cfg, psram
      ensures Painted(before, Contents(), Aim(), all, col)
    {
      ghost var now := Contents();
      PSet(x, y, col);
      PaintMore(before, now, Contents(), Aim(), done, iset{Point(x, y)}, all, col);
    }

    method HLine(x0: int, x1: int, y: int, col: bv8)
      requires Valid()
      modifies vram, cfg, psram
      ensures Painted(old(Contents()), Contents(), Aim(), Span(x0, x1, y), col)
    {
      ghost var t, before := Aim(), Contents();
      var left, right := x0, x1;
      if left > right {
        left, right := right, left;
      }
      if y < 0 || y >= targetH {
        PaintNothing(before, t, Span(x0, x1, y), col);
        return;
      }
      if left < 0 {
        left := 0;
      }
      if right >= targetW {
        right := targetW - 1;
      }
      var x := left;
      PaintNothing(before, t, Cells(left, left, y), col);
      while x <= right
        invariant left <= x && (x <= right + 1 || x == left)
        invariant Painted(before, Contents(), t, Cells(left, x, y), col)
        decreases right - x
      {
        RowGrows(left, x, y);
        AddPixel(x, y, col, before, Cells(left, x, y), Cells(left, x + 1, y));
        x := x + 1;
      }
      RowIsSpan(before, Contents(), t, x0, x1, y, left, x, col);
    }

    method AddRow(x0: int, x1: int, y: int, ghost before: Memory, ghost done: iset<Point>, ghost all: iset<Point>)
      requires Valid() && Painted(before, Contents(), Aim(), done, color)
      requires all == done + Span(x0, x1, y)
      modifies vram, cfg, psram
      ensures Painted(before, Contents(), Aim(), all, color)
    {
      ghost var now := Contents();
      HLine(x0, x1, y, color);
      PaintMore(before, now, Contents(), Aim(), done, Span(x0, x1, y), all, color);
    }

    /** CLEAR: the whole target. */
    method Clear()
      requires Valid()
      modifies vram, cfg, psram
      ensures Painted(old(Contents()), Contents(), Aim(), Everything(), color)
    {
      ghost var t, before := Aim(), Contents();
      PaintNone(before, t, color);
      var j := 0;
      RowsStart(0, targetW - 1, 0);
      while j < targetH
        invariant 0 <= j <= targetH
        invariant Painted(before, Contents(), t, Rows(0, t.w - 1, 0, j), color)
      {
        RowsGrow(0, t.w - 1, 0, j);
        AddRow(0, targetW - 1, j, before, Rows(0, t.w - 1, 0, j), Rows(0, t.w - 1, 0, j + 1));
        j := j + 1;
      }
      PaintClipped(before, Contents(), t, Rows(0, t.w - 1, 0, j), Everything(), color);
    }

    /** FILLRECT: a solid box; an empty one if the width or the height is not positive. */
    method FillRect(x: int, y: int, w: int, h: int)
      requires Valid()
      modifies vram, cfg, psram
      ensures Painted(old(Contents()), Contents(), Aim(), Box(x, y, w, h), color)
    {
      ghost var t, before := Aim(), Contents();
      if w <= 0 || h <= 0 {
        PaintNothing(before, t, Box(x, y, w, h), color);
        return;
      }
      var top := if y < 0 then 0 else y;
      var j := top;
      PaintNothing(before, t, Rows(x, x + w - 1, top, top), color);
      while j < y + h && j < targetH
        invariant top <= j && (j <= y + h || j == top)
        invariant j == top || j <= targetH
        invariant Painted(before, Contents(), t, Rows(x, x + w - 1, top, j), color)
      {
        RowsGrow(x, x + w - 1, top, j);
        AddRow(x, x + w - 1, j, before, Rows(x, x + w - 1, top, j), Rows(x, x + w - 1, top, j + 1));
        j := j + 1;
      }
      RowsFillBox(before, Contents(), t, x, y, w, h, j, color);
    }

    method TopAndBottom(x: int, y: int, w: int, h: int)
      requires Valid() && w > 0 && h > 0
      modifies vram, cfg, psram
      ensures Painted(old(Contents()), Contents(), Aim(), FrameTo(x, y, w, h, y + 1), color)
    {
      ghost var before := Contents();
      HLine(x, x + w - 1, y, color);
      SidesStart(x, y, w, h);
      AddRow(x, x + w - 1, y + h - 1, before, Span(x, x + w - 1, y), FrameTo(x, y, w, h, y + 1));
    }

    method AddSides(x0: int, x1: int, y: int, ghost before: Memory, ghost done: iset<Point>, ghost all: iset<Point>)
      requires Valid() && Painted(before, Contents(), Aim(), done, color)
      requires all == done + Sides(x0, x1, y)
      modifies vram, cfg, psram
      ensures Painted(before, Contents(), Aim(), all, color)
    {
      ghost var left := done + iset{Point(x0, y)};
      AddPixel(x0, y, color, before, done, left);
      AddPixel(x1, y, color, before, left, all);
    }

    /** RECT: the outermost pixels of a box. */
    method Rect(x: int, y: int, w: int, h: int)
      requires Valid()
      modifies vram, cfg, psram
      ensures Painted(old(Contents()), Contents(), Aim(), Frame(x, y, w, h), color)
    {
      ghost var t, before := Aim(), Contents();
      if w <= 0 || h <= 0 {
        NoFrame(before, t, x, y, w, h, color);
        return;
      }
      TopAndBottom(x, y, w, h);
      var j := y + 1;
      ghost var done := FrameTo(x, y, w, h, j);
      while j < y + h - 1
        invariant y + 1 <= j && (j < y + h || j == y + 1)
        invariant done == FrameTo(x, y, w, h, j) && Painted(before, Contents(), t, done, color)
      {
        SidesGrow(x, y, w, h, j);
        ghost var all := FrameTo(x, y, w, h, j + 1);
        AddSides(x, x + w - 1, j, before, done, all);
        j, done := j + 1, all;
      }
      SidesMeet(before, Contents(), t, x, y, w, h, j, color);
    }

    /** LINE: Bresenham's, with one error term for both axes. `path` is what it plots, in order. */
    method Line(x0: int, y0: int, x1: int, y1: int) returns (ghost path: seq<Point>)
      requires Valid()
      modifies vram, cfg, psram
      ensures Painted(old(Contents()), Contents(), Aim(), LinePoints(x0, y0, x1, y1), color)
      ensures path == LinePath(x0, y0, x1, y1, LineLength(x0, y0, x1, y1))
    {
      ghost var t, before := Aim(), Contents();
      var dx, sx := if x1 > x0 then x1 - x0 else x0 - x1, if x0 < x1 then 1 else -1;
      var dy, sy := if y1 > y0 then y0 - y1 else y1 - y0, if y0 < y1 then 1 else -1;
      var x, y, err := x0, y0, dx + dy;
      PaintNothing(before, t, LineTo(x0, y0, x1, y1, 0), color);
      LineBegins(x0, y0, x1, y1);
      ghost var i := 0;
      path := [];
      while true
        invariant i < LineLength(x0, y0, x1, y1) && path == LinePath(x0, y0, x1, y1, i)
        invariant AtPixel(x0, y0, x1, y1, i, x, y, err)
        invariant Painted(before, Contents(), t, LineTo(x0, y0, x1, y1, i), color)
        decreases LineLength(x0, y0, x1, y1) - i
      {
        var e2 := 2 * err;
        LineGrows(x0, y0, x1, y1, i);
        AddPixel(x, y, color, before, LineTo(x0, y0, x1, y1, i), LineTo(x0, y0, x1, y1, i + 1));
        PathGrows(x0, y0, x1, y1, i);
        path := path + [Point(x, y)];
        LineEndsOnce(x0, y0, x1, y1, i);
        if x == x1 && y == y1 {
          break;
        }
        LineNext(x0, y0, x1, y1, i, x, y, err, e2 >= dy, e2 <= dx);
        i := i + 1;
        if e2 >= dy {
          err, x := err + dy, x + sx;
        }
        if e2 <= dx {
          err, y := err + dx, y + sy;
        }
      }
    }

    method AddCorners(x0: int, x1: int, y0: int, y1: int, ghost before: Memory, ghost done: iset<Point>,
                      ghost all: iset<Point>)
      requires Valid() && Painted(before, Contents(), Aim(), done, color) && all == WithCorners(done, x0, x1, y0, y1)
      modifies vram, cfg, psram
      ensures Painted(before, Contents(), Aim(), all, color)
    {
      ghost var first := done + Sides(x0, x1, y0);
      AddSides(x0, x1, y0, before, done, first);
      AddSides(x0, x1, y1, before, first, all);
    }

    /** One step of the outline: the point's eight reflections. */
    method EightPixels(cx: int, cy: int, x: nat, y: nat, ghost before: Memory, ghost done: iset<Point>,
                       ghost half: iset<Point>, ghost all: iset<Point>)
      requires Valid() && Painted(before, Contents(), Aim(), done, color)
      requires half == WithCorners(done, cx + x, cx - x, cy + y, cy - y)
      requires all == WithCorners(half, cx + y, cx - y, cy + x, cy - x)
      modifies vram, cfg, psram
      ensures Painted(before, Contents(), Aim(), all, color)
    {
      AddCorners(cx + x, cx - x, cy + y, cy - y, before, done, half);
      AddCorners(cx + y, cx - y, cy + x, cy - x, before, half, all);
    }

    method OutlineStep(cx: int, cy: int, ghost r: nat, x: nat, y: nat, ghost before: Memory)
      requires Valid() && Octant(r, x, y) && Painted(before, Contents(), Aim(), CircleTo(cx, cy, r, y), color)
      modifies vram, cfg, psram
      ensures Painted(before, Contents(), Aim(), CircleTo(cx, cy, r, y + 1), color)
    {
      ghost var done, all := CircleTo(cx, cy, r, y), CircleTo(cx, cy, r, y + 1);
      ghost var half := OutlineGrows(cx, cy, r, x, y, done, all);
      EightPixels(cx, cy, x, y, before, done, half, all);
    }

    method AddRows(x0: int, x1: int, y0: int, y1: int, ghost before: Memory, ghost done: iset<Point>)
      requires Valid() && Painted(before, Contents(), Aim(), done, color)
      modifies vram, cfg, psram
      ensures Painted(before, Contents(), Aim(), WithSpans(done, x0, x1, y0, y1), color)
    {
      ghost var first := done + Span(x0, x1, y0);
      AddRow(x0, x1, y0, before, done, first);
      AddRow(x0, x1, y1, before, first, first + Span(x0, x1, y1));
    }

    /** One step of the disc: the wide rows near the centre, then the narrow ones further off. */
    method FillStep(cx: int, cy: int, ghost r: nat, x: nat, y: nat, ghost before: Memory)
      requires Valid() && Octant(r, x, y) && Painted(before, Contents(), Aim(), DiscTo(cx, cy, r, y), color)
      modifies vram, cfg, psram
      ensures Painted(before, Contents(), Aim(), DiscTo(cx, cy, r, y + 1), color)
    {
      ghost var done := DiscTo(cx, cy, r, y);
      AddRows(cx - x, cx + x, cy + y, cy - y, before, done);
      FillRest(cx, cy, r, x, y, before, WithSpans(done, cx - x, cx + x, cy + y, cy - y));
    }

    method FillRest(cx: int, cy: int, ghost r: nat, x: nat, y: nat, ghost before: Memory, ghost half: iset<Point>)
      requires Valid() && Octant(r, x, y) && Painted(before, Contents(), Aim(), half, color)
      requires half == WithSpans(DiscTo(cx, cy, r, y), cx - x, cx + x, cy + y, cy - y)
      modifies vram, cfg, psram
      ensures Painted(before, Contents(), Aim(), DiscTo(cx, cy, r, y + 1), color)
    {
      AddRows(cx - y, cx + y, cy + x, cy - x, before, half);
      FillGrows(cx, cy, r, x, y, DiscTo(cx, cy, r, y), half);
    }

    /** What the circle's loop has drawn when it reaches row y. */
    ghost function Drawn(cx: int, cy: int, r: nat, y: nat, fill: bool): iset<Point> {
      if fill then DiscTo(cx, cy, r, y) else CircleTo(cx, cy, r, y)
    }

    /** CIRCLE and DISC: the midpoint algorithm. A negative radius draws nothing. */
    method Circle(cx: int, cy: int, r: int, fill: bool)
      requires Valid()
      modifies vram, cfg, psram
      ensures Painted(old(Contents()), Contents(), Aim(),
                      if fill then DiscPoints(cx, cy, r) else CirclePoints(cx, cy, r), color)
    {
      ghost var t, before := Aim(), Contents();
      var x, y, err := r, 0, 1 - r;
      if r < 0 {
        PaintNothing(before, t, if fill then DiscPoints(cx, cy, r) else CirclePoints(cx, cy, r), color);
        return;
      }
      CircleFirst(r);
      PaintNothing(before, t, Drawn(cx, cy, r, 0, fill), color);
      while x >= y
        invariant 0 <= y && CircleStep(r, x, y, err)
        invariant Painted(before, Contents(), t, Drawn(cx, cy, r, y, fill), color)
        decreases r + x - y
      {
        StepIsOctant(r, x, y, err);
        if fill {
          FillStep(cx, cy, r, x, y, before);
        } else {
          OutlineStep(cx, cy, r, x, y, before);
        }
        CircleNext(r, x, y, err);
        y := y + 1;
        if err < 0 {
          err := err + 2 * y + 1;
        } else {
          x := x - 1;
          err := err + 2 * (y - x) + 1;
        }
      }
      CircleDone(cx, cy, r, x, y, err);
      DiscDone(cx, cy, r, x, y, err);
    }

    /** TRIANGLE: sorted by rows, then row by row between its two edges. */
    method Triangle(p: Point, q: Point, r: Point)
      requires Valid()
      modifies vram, cfg, psram
      ensures Painted(old(Contents()), Contents(), Aim(), TrianglePoints(p, q, r), color)
    {
      ghost var t, before := Aim(), Contents();
      var lo, mid, hi := p, q, r;
      if mid.y < lo.y {
        lo, mid := mid, lo;
      }
      if hi.y < lo.y {
        lo, hi := hi, lo;
      }
      if hi.y < mid.y {
        mid, hi := hi, mid;
      }
      var y := if lo.y < 0 then 0 else lo.y;
      TriangleBegins(before, t, lo, mid, hi, color);
      while y <= hi.y && y < targetH
        invariant lo.y <= y
        invariant Painted(before, Contents(), t, TriangleTo(lo, mid, hi, y), color)
      {
        var xa := EdgeX(lo, hi, y);
        var xb := if y < mid.y then EdgeX(lo, mid, y) else EdgeX(mid, hi, y);
        TriangleGrows(lo, mid, hi, y);
        AddRow(xa, xb, y, before, TriangleTo(lo, mid, hi, y), TriangleTo(lo, mid, hi, y + 1));
        y := y + 1;
      }
      TriangleDone(before, Contents(), t, p, q, r, y, color);
    }

    /** TARGET: where drawing goes from now on. A depth the card does not draw leaves an empty target. */
    method SetTarget(addr: nat, stride: nat, w: nat, h: nat, bpp: nat)
      requires Valid() && addr < ADDRESS_SPACE && stride < 0x1_0000 && w < 0x1_0000 && h < 0x1_0000
      modifies this
      ensures Valid() && color == old(color)
      ensures Aim() == if IsDepth(bpp) then Target(addr, stride, w, h, bpp, psram != null)
                       else Target(addr, stride, 0, 0, 8, psram != null)
    {
      targetAddr, targetStride, targetW, targetH, targetBpp := addr, stride, w, h, bpp;
      if bpp != 1 && bpp != 2 && bpp != 4 && bpp != 8 {
        targetW, targetH := 0, 0;
        targetBpp := 8;
      }
    }
  }

  /** Two points of a row. */
  ghost function Sides(x0: int, x1: int, y: int): iset<Point> { iset{Point(x0, y), Point(x1, y)} }

  ghost function WithCorners(done: iset<Point>, x0: int, x1: int, y0: int, y1: int): iset<Point> {
    done + Sides(x0, x1, y0) + Sides(x0, x1, y1)
  }

  lemma EightAre(cx: int, cy: int, x: nat, y: nat, done: iset<Point>, all: iset<Point>)
    requires all == done + Eight(cx, cy, x, y)
    ensures all == WithCorners(WithCorners(done, cx + x, cx - x, cy + y, cy - y), cx + y, cx - y, cy + x, cy - x)
  {
  }

  /** A step of the outline, in the two halves it is drawn in. */
  lemma OutlineGrows(cx: int, cy: int, r: nat, x: nat, y: nat, done: iset<Point>, all: iset<Point>)
    returns (half: iset<Point>)
    requires Octant(r, x, y) && done == CircleTo(cx, cy, r, y) && all == CircleTo(cx, cy, r, y + 1)
    ensures half == WithCorners(done, cx + x, cx - x, cy + y, cy - y)
    ensures all == WithCorners(half, cx + y, cx - y, cy + x, cy - x)
  {
    CircleGrows(cx, cy, r, x, y);
    EightAre(cx, cy, x, y, done, all);
    half := WithCorners(done, cx + x, cx - x, cy + y, cy - y);
  }

  ghost function WithSpans(done: iset<Point>, x0: int, x1: int, y0: int, y1: int): iset<Point> {
    done + Span(x0, x1, y0) + Span(x0, x1, y1)
  }

  /** A step of the disc, in the two halves it is drawn in. */
  lemma FillGrows(cx: int, cy: int, r: nat, x: nat, y: nat, done: iset<Point>, half: iset<Point>)
    requires Octant(r, x, y) && done == DiscTo(cx, cy, r, y)
    requires half == WithSpans(done, cx - x, cx + x, cy + y, cy - y)
    ensures WithSpans(half, cx - y, cx + y, cy + x, cy - x) == DiscTo(cx, cy, r, y + 1)
  {
    DiscGrows(cx, cy, r, x, y);
    FourAre(cx, cy, x, y, done, half, DiscTo(cx, cy, r, y + 1));
  }

  lemma FourAre(cx: int, cy: int, x: nat, y: nat, done: iset<Point>, half: iset<Point>, all: iset<Point>)
    requires half == WithSpans(done, cx - x, cx + x, cy + y, cy - y) && all == done + Four(cx, cy, x, y)
    ensures all == WithSpans(half, cx - y, cx + y, cy + x, cy - x)
  {
  }

  /** Part of a row. */
  ghost function Cells(left: int, right: int, y: int): iset<Point> {
    iset p: Point | p.y == y && left <= p.x < right
  }

  /** The rows from one to before another. */
  ghost function Rows(x0: int, x1: int, top: int, bottom: int): iset<Point> {
    iset p: Point | top <= p.y < bottom && Between(p.x, x0, x1)
  }

  /** The top and bottom of a box and its sides down to a row. */
  ghost function FrameTo(x: int, y: int, w: int, h: int, j: int): iset<Point> {
    iset p: Point | (x <= p.x < x + w && (p.y == y || p.y == y + h - 1))
      || ((p.x == x || p.x == x + w - 1) && y < p.y < j)
  }

  lemma RowsStart(x0: int, x1: int, top: int)
    ensures Rows(x0, x1, top, top) == iset{}
  {
  }

  lemma RowsGrow(x0: int, x1: int, top: int, j: int)
    requires top <= j
    ensures Rows(x0, x1, top, j + 1) == Rows(x0, x1, top, j) + Span(x0, x1, j)
  {
  }

  lemma RowsFillBox(before: Memory, after: Memory, t: Target, x: int, y: int, w: int, h: int, j: int, color: bv8)
    requires IsDepth(t.bpp) && w > 0 && h > 0
    requires var top := Max(0, y);
             && top <= j && (j >= y + h || j >= t.h) && (j <= y + h || j == top)
             && Painted(before, after, t, Rows(x, x + w - 1, top, j), color)
    ensures Painted(before, after, t, Box(x, y, w, h), color)
  {
    PaintClipped(before, after, t, Rows(x, x + w - 1, Max(0, y), j), Box(x, y, w, h), color);
  }

  lemma SidesStart(x: int, y: int, w: int, h: int)
    requires w > 0 && h > 0
    ensures FrameTo(x, y, w, h, y + 1) == Span(x, x + w - 1, y) + Span(x, x + w - 1, y + h - 1)
  {
  }

  lemma SidesGrow(x: int, y: int, w: int, h: int, j: int)
    requires w > 0 && y < j
    ensures FrameTo(x, y, w, h, j + 1) == FrameTo(x, y, w, h, j) + iset{Point(x, j)} + iset{Point(x + w - 1, j)}
  {
  }

  lemma SidesMeet(before: Memory, after: Memory, t: Target, x: int, y: int, w: int, h: int, j: int, color: bv8)
    requires IsDepth(t.bpp) && w > 0 && h > 0 && (j == y + h - 1 || (j == y + 1 && h == 1))
    requires Painted(before, after, t, FrameTo(x, y, w, h, j), color)
    ensures Painted(before, after, t, Frame(x, y, w, h), color)
  {
    PaintClipped(before, after, t, FrameTo(x, y, w, h, j), Frame(x, y, w, h), color);
  }

  lemma NoFrame(m: Memory, t: Target, x: int, y: int, w: int, h: int, color: bv8)
    requires IsDepth(t.bpp) && (w <= 0 || h <= 0)
    ensures Painted(m, m, t, Frame(x, y, w, h), color)
  {
    PaintNothing(m, t, Frame(x, y, w, h), color);
  }

  lemma RowGrows(left: int, x: int, y: int)
    requires left <= x
    ensures Cells(left, x + 1, y) == Cells(left, x, y) + iset{Point(x, y)}
  {
  }

  /** The clipped row is the span, as far as the target goes. */
  lemma RowIsSpan(before: Memory, after: Memory, t: Target, x0: int, x1: int, y: int, left: int, right: int, col: bv8)
    requires left == Max(Min(x0, x1), 0) && right == Max(left, Min(Max(x0, x1), t.w - 1) + 1)
    requires IsDepth(t.bpp) && Painted(before, after, t, Cells(left, right, y), col)
    ensures Painted(before, after, t, Span(x0, x1, y), col)
  {
    PaintClipped(before, after, t, Cells(left, right, y), Span(x0, x1, y), col);
  }
}
