/** The video card's address space, the packed pixels of a drawing target in it,
    and what it means for a set of points to be painted. */
module VideoMemory {
  import opened Words

  const VRAM_SIZE := 0x4_0000
  const CFG_BASE := 0x4_0000
  const CFG_SIZE := 0x400
  const PSRAM_BASE := 0x80_0000
  const PSRAM_SIZE := 0x80_0000
  const ADDRESS_SPACE := 0x100_0000

  /** Every byte the card's 24-bit addresses reach; one with nothing behind it reads 0. */
  type Memory = m: seq<bv8> | |m| == ADDRESS_SPACE witness seq(ADDRESS_SPACE, _ => 0)

  /** Whether anything is at an address: video memory, settings, or PSRAM if there is one. */
  predicate Mapped(a: int, hasPsram: bool) {
    0 <= a < CFG_BASE + CFG_SIZE || (hasPsram && PSRAM_BASE <= a < ADDRESS_SPACE)
  }

  // ---- pixels in a byte ----

  predicate IsDepth(bpp: nat) { bpp == 1 || bpp == 2 || bpp == 4 || bpp == 8 }

  /** A shift of 0 to 7 places, as the amount the bit operations take. */
  function Places(s: int): bv8 {
    if s == 0 then 0 else if s == 1 then 1 else if s == 2 then 2 else if s == 3 then 3
    else if s == 4 then 4 else if s == 5 then 5 else if s == 6 then 6 else 7
  }

  /** The low `bpp` bits. */
  function LowBits(bpp: nat): bv8 {
    if bpp == 1 then 0x01 else if bpp == 2 then 0x03 else if bpp == 4 then 0x0F else 0xFF
  }

  /** Where a pixel of this depth can be in its byte. */
  predicate IsPlace(bpp: nat, s: nat) {
    if bpp == 8 then s == 0
    else if bpp == 4 then s == 0 || s == 4
    else if bpp == 2 then s == 0 || s == 2 || s == 4 || s == 6
    else s < 8
  }

  function Cut(b: bv8, low: bv8, s: bv8): bv8
    requires s < 8
  {
    (b >> s) & low
  }

  /** A byte with some of its bits replaced, as the program masks them in. */
  function Masked(b: bv8, low: bv8, s: bv8, color: bv8): bv8
    requires s < 8
  {
    (b & !(low << s)) | ((color << s) & (low << s))
  }

  /** The pixel `s` places up in a byte. */
  function Field(b: bv8, bpp: nat, s: int): bv8 { Cut(b, LowBits(bpp), Places(s)) }

  /** A byte with one pixel replaced. */
  function WithField(b: bv8, bpp: nat, s: int, color: bv8): bv8 { Masked(b, LowBits(bpp), Places(s), color) }

  /** Two pixels of the same depth share no bits, and lie inside the byte. */
  predicate Apart(low: bv8, s: bv8, t: bv8) {
    s < 8 && t < 8 && (((low << s) & (low << t)) == 0) && (((low << s) >> s) == low) && (((low << t) >> t) == low)
  }

  lemma MaskKeepsOthers(b: bv8, low: bv8, s: bv8, t: bv8, color: bv8)
    requires Apart(low, s, t)
    ensures Cut(Masked(b, low, s, color), low, t) == Cut(b, low, t)
  {
  }

  lemma MaskSets(b: bv8, low: bv8, s: bv8, color: bv8)
    requires s < 8 && ((low << s) >> s) == low
    ensures Cut(Masked(b, low, s, color), low, s) == color & low
  {
  }

  lemma PlacesFit(bpp: nat, s: nat)
    requires IsDepth(bpp) && IsPlace(bpp, s)
    ensures Places(s) < 8 && ((LowBits(bpp) << Places(s)) >> Places(s)) == LowBits(bpp)
  {
  }

  lemma PlacesApart(bpp: nat, s: nat, t: nat)
    requires IsDepth(bpp) && IsPlace(bpp, s) && IsPlace(bpp, t) && s != t
    ensures Apart(LowBits(bpp), Places(s), Places(t))
  {
    PlacesFit(bpp, s);
    PlacesFit(bpp, t);
    if bpp == 8 {
    } else if bpp == 4 {
    } else if bpp == 2 {
    } else {
      assert Places(s) != Places(t);
    }
  }

  /** Writing a pixel sets that pixel to the colour's low bits and no other pixel of the byte. */
  lemma MaskedLaw(b: bv8, bpp: nat, s: nat, t: nat, color: bv8)
    requires IsDepth(bpp) && IsPlace(bpp, s) && IsPlace(bpp, t)
    ensures Field(WithField(b, bpp, s, color), bpp, t) == if t == s then color & LowBits(bpp) else Field(b, bpp, t)
  {
    if s == t {
      PlacesFit(bpp, s);
      MaskSets(b, LowBits(bpp), Places(s), color);
    } else {
      PlacesApart(bpp, s, t);
      MaskKeepsOthers(b, LowBits(bpp), Places(s), Places(t), color);
    }
  }

  lemma SameNibbles(b: bv8, c: bv8)
    requires Cut(b, 0x0F, 0) == Cut(c, 0x0F, 0) && Cut(b, 0x0F, 4) == Cut(c, 0x0F, 4)
    ensures b == c
  {
  }

  lemma SamePairs(b: bv8, c: bv8)
    requires Cut(b, 3, 0) == Cut(c, 3, 0) && Cut(b, 3, 2) == Cut(c, 3, 2)
    requires Cut(b, 3, 4) == Cut(c, 3, 4) && Cut(b, 3, 6) == Cut(c, 3, 6)
    ensures b == c
  {
  }

  lemma SameBits(b: bv8, c: bv8)
    requires Cut(b, 1, 0) == Cut(c, 1, 0) && Cut(b, 1, 1) == Cut(c, 1, 1)
    requires Cut(b, 1, 2) == Cut(c, 1, 2) && Cut(b, 1, 3) == Cut(c, 1, 3)
    requires Cut(b, 1, 4) == Cut(c, 1, 4) && Cut(b, 1, 5) == Cut(c, 1, 5)
    requires Cut(b, 1, 6) == Cut(c, 1, 6) && Cut(b, 1, 7) == Cut(c, 1, 7)
    ensures b == c
  {
  }

  lemma SameWhole(b: bv8, c: bv8)
    requires Cut(b, 0xFF, 0) == Cut(c, 0xFF, 0)
    ensures b == c
  {
  }

  predicate SameField(b: bv8, c: bv8, bpp: nat, s: nat) { Field(b, bpp, s) == Field(c, bpp, s) }

  /** The pixels of a byte are all of the byte. */
  lemma FieldsAreTheByte(b: bv8, c: bv8, bpp: nat)
    requires IsDepth(bpp)
    requires forall s: nat :: s < 8 && IsPlace(bpp, s) ==> SameField(b, c, bpp, s)
    ensures b == c
  {
    if bpp == 8 {
      assert SameField(b, c, 8, 0);
      SameWhole(b, c);
    } else if bpp == 4 {
      assert SameField(b, c, 4, 0) && SameField(b, c, 4, 4);
      SameNibbles(b, c);
    } else if bpp == 2 {
      assert SameField(b, c, 2, 0) && SameField(b, c, 2, 2) && SameField(b, c, 2, 4) && SameField(b, c, 2, 6);
      SamePairs(b, c);
    } else {
      assert SameField(b, c, 1, 0) && SameField(b, c, 1, 1) && SameField(b, c, 1, 2) && SameField(b, c, 1, 3);
      assert SameField(b, c, 1, 4) && SameField(b, c, 1, 5) && SameField(b, c, 1, 6) && SameField(b, c, 1, 7);
      SameBits(b, c);
    }
  }

  /** At 8 bits per pixel the whole byte is the pixel. */
  lemma WholeByte(b: bv8, color: bv8)
    ensures WithField(b, 8, 0, color) == color
  {
  }

  lemma WholeField(b: bv8)
    ensures Field(b, 8, 0) == b
  {
  }

  // ---- the target ----

  datatype Point = Point(x: int, y: int)

  /** Where drawing goes: the target's address, bytes per row, size in pixels and depth,
      and whether the card has PSRAM. */
  datatype Target = Target(addr: nat, stride: nat, w: nat, h: nat, bpp: nat, hasPsram: bool)

  predicate Inside(t: Target, p: Point) { 0 <= p.x < t.w && 0 <= p.y < t.h }

  /** The byte and the place in it of a pixel, by the address arithmetic of the card (modulo 2^24). */
  function AddressOf(t: Target, p: Point): (a: nat)
    ensures a < ADDRESS_SPACE
  {
    (t.addr + p.y * t.stride + p.x * t.bpp / 8) % ADDRESS_SPACE
  }

  lemma OffsetIsNat(t: Target, p: Point)
    requires Inside(t, p)
    ensures p.y * t.stride >= 0 && p.x * t.bpp >= 0
  {
    MulMono(0, p.y, t.stride);
    MulMono(0, p.x, t.bpp);
  }

  function PlaceOf(t: Target, p: Point): int { 8 - t.bpp - p.x * t.bpp % 8 }

  lemma PlaceIsPlace(t: Target, p: Point)
    requires IsDepth(t.bpp)
    ensures 0 <= PlaceOf(t, p) < 8 && IsPlace(t.bpp, PlaceOf(t, p))
  {
    if t.bpp == 8 {
    } else if t.bpp == 4 {
    } else if t.bpp == 2 {
    } else {
    }
  }

  /** The colour of a pixel, as `pget` reads it. */
  function Pixel(m: Memory, t: Target, p: Point): bv8
    requires IsDepth(t.bpp)
  {
    PlaceIsPlace(t, p);
    Field(m[AddressOf(t, p)], t.bpp, PlaceOf(t, p))
  }

  /** `p` is a pixel of the target and kept in the byte at `a`, `s` places up. */
  predicate KeptAt(t: Target, p: Point, a: nat, s: nat) {
    Inside(t, p) && AddressOf(t, p) == a && PlaceOf(t, p) == s
  }

  ghost predicate Hit(t: Target, points: iset<Point>, a: nat, s: nat) {
    exists p :: p in points && KeptAt(t, p, a, s)
  }

  /** What drawing the points does to the bits `s` places up in the byte at `a`. */
  ghost predicate PaintedAt(before: Memory, after: Memory, t: Target, points: iset<Point>, color: bv8, a: nat, s: nat)
    requires a < ADDRESS_SPACE
  {
    Field(after[a], t.bpp, s)
      == if Hit(t, points, a, s) && Mapped(a, t.hasPsram) then color & LowBits(t.bpp) else Field(before[a], t.bpp, s)
  }

  /** `after` is `before` with the given points of the target, and nothing else in the
      address space, set to the colour. */
  ghost predicate Painted(before: Memory, after: Memory, t: Target, points: iset<Point>, color: bv8)
    requires IsDepth(t.bpp)
  {
    forall a: nat, s: nat :: a < ADDRESS_SPACE && s < 8 && IsPlace(t.bpp, s) ==>
      PaintedAt(before, after, t, points, color, a, s)
  }

  /** The byte a plotted pixel goes to, and what is stored there. */
  lemma PlottedByte(m: Memory, t: Target, p: Point, color: bv8)
    requires IsDepth(t.bpp)
    ensures 0 <= PlaceOf(t, p) < 8
    ensures Plotted(m, t, p, color)
         == Stored(m, t.hasPsram, AddressOf(t, p),
                   if t.bpp == 8 then color else WithField(m[AddressOf(t, p)], t.bpp, PlaceOf(t, p), color))
  {
    PlaceIsPlace(t, p);
    if t.bpp == 8 {
      WholeByte(m[AddressOf(t, p)], color);
    }
  }

  // ---- painting in steps ----

  lemma PaintNone(m: Memory, t: Target, color: bv8)
    requires IsDepth(t.bpp)
    ensures Painted(m, m, t, iset{}, color)
  {
  }

  /** The address space with one byte stored, if there is anything to store it in. */
  function Stored(m: Memory, hasPsram: bool, a: nat, v: bv8): (r: Memory)
    requires a < ADDRESS_SPACE
  {
    if Mapped(a, hasPsram) then m[a := v] else m
  }

  /** A byte stored is there, if it is video memory, a setting, or PSRAM the card has; no other changes. */
  lemma StoredByte(m: Memory, hasPsram: bool, a: nat, v: bv8, b: nat)
    requires a < 0x100_0000 && b < 0x100_0000
    ensures Stored(m, hasPsram, a, v)[b] == if b == a && (a < 0x4_0400 || (hasPsram && a >= 0x80_0000)) then v else m[b]
  {
  }

  /** One pixel masked into its byte. */
  function Plotted(m: Memory, t: Target, p: Point, color: bv8): (r: Memory)
    requires IsDepth(t.bpp)
  {
    PlaceIsPlace(t, p);
    var a := AddressOf(t, p);
    Stored(m, t.hasPsram, a, WithField(m[a], t.bpp, PlaceOf(t, p), color))
  }

  lemma PaintOne(before: Memory, t: Target, p: Point, color: bv8)
    requires IsDepth(t.bpp)
    requires Inside(t, p)
    ensures Painted(before, Plotted(before, t, p, color), t, iset{p}, color)
  {
    PlaceIsPlace(t, p);
    var after := Plotted(before, t, p, color);
    forall a: nat, s: nat | a < ADDRESS_SPACE && s < 8 && IsPlace(t.bpp, s)
      ensures PaintedAt(before, after, t, iset{p}, color, a, s)
    {
      MaskedLaw(before[a], t.bpp, PlaceOf(t, p), s, color);
      assert Hit(t, iset{p}, a, s) <==> KeptAt(t, p, a, s) by {
        assert p in iset{p};
      }
    }
  }

  lemma PaintUnion(m0: Memory, m1: Memory, m2: Memory, t: Target, first: iset<Point>, second: iset<Point>, color: bv8)
    requires IsDepth(t.bpp)
    requires Painted(m0, m1, t, first, color) && Painted(m1, m2, t, second, color)
    ensures Painted(m0, m2, t, first + second, color)
  {
    forall a: nat, s: nat | a < ADDRESS_SPACE && s < 8 && IsPlace(t.bpp, s)
      ensures PaintedAt(m0, m2, t, first + second, color, a, s)
    {
      assert PaintedAt(m0, m1, t, first, color, a, s) && PaintedAt(m1, m2, t, second, color, a, s);
      HitUnion(t, first, second, a, s);
    }
  }

  /** Painting one set of points after another paints all of them. */
  lemma PaintMore(m0: Memory, m1: Memory, m2: Memory, t: Target, first: iset<Point>, second: iset<Point>,
                  all: iset<Point>, color: bv8)
    requires IsDepth(t.bpp) && all == first + second
    requires Painted(m0, m1, t, first, color) && Painted(m1, m2, t, second, color)
    ensures Painted(m0, m2, t, all, color)
  {
    PaintUnion(m0, m1, m2, t, first, second, color);
  }

  lemma HitUnion(t: Target, first: iset<Point>, second: iset<Point>, a: nat, s: nat)
    ensures Hit(t, first + second, a, s) <==> Hit(t, first, a, s) || Hit(t, second, a, s)
  {
    if Hit(t, first, a, s) {
      var p :| p in first && KeptAt(t, p, a, s);
      assert p in first + second;
    }
    if Hit(t, second, a, s) {
      var p :| p in second && KeptAt(t, p, a, s);
      assert p in first + second;
    }
  }

  /** Two sets of points with the same ones inside the target. */
  ghost predicate SameInside(t: Target, points: iset<Point>, same: iset<Point>) {
    forall p :: Inside(t, p) ==> (p in points <==> p in same)
  }

  /** Only the points inside the target matter. */
  lemma PaintClipped(before: Memory, after: Memory, t: Target, points: iset<Point>, same: iset<Point>, color: bv8)
    requires IsDepth(t.bpp)
    requires Painted(before, after, t, points, color)
    requires SameInside(t, points, same)
    ensures Painted(before, after, t, same, color)
  {
    forall a: nat, s: nat | a < ADDRESS_SPACE && s < 8 && IsPlace(t.bpp, s)
      ensures PaintedAt(before, after, t, same, color, a, s)
    {
      assert PaintedAt(before, after, t, points, color, a, s);
    }
  }

  /** Nothing is drawn where no point is inside the target. */
  lemma PaintNothing(m: Memory, t: Target, points: iset<Point>, color: bv8)
    requires IsDepth(t.bpp) && SameInside(t, iset{}, points)
    ensures Painted(m, m, t, points, color)
  {
    PaintNone(m, t, color);
    PaintClipped(m, m, t, iset{}, points, color);
  }

  lemma PaintOutside(m: Memory, t: Target, p: Point, color: bv8)
    requires IsDepth(t.bpp) && !Inside(t, p)
    ensures Painted(m, m, t, iset{p}, color)
  {
    PaintNothing(m, t, iset{p}, color);
  }

  // ---- what painting means for a sound target ----

  /** The bytes of a row. */
  function RowBytes(t: Target): nat { (t.w * t.bpp + 7) / 8 }

  /** The target lies in one mapped region and its rows do not overlap. */
  predicate Sound(t: Target) {
    && IsDepth(t.bpp)
    && t.w * t.bpp <= t.stride * 8
    && (t.h > 0 ==>
          var end := t.addr + (t.h - 1) * t.stride + RowBytes(t);
          end <= CFG_BASE + CFG_SIZE || (t.hasPsram && PSRAM_BASE <= t.addr && end <= ADDRESS_SPACE))
  }

  /** A pixel's byte, before the wrap-around, counted from the target's first byte. */
  function Offset(t: Target, p: Point): int { p.y * t.stride + p.x * t.bpp / 8 }

  lemma BitsInRow(t: Target, p: Point)
    requires IsDepth(t.bpp) && Inside(t, p)
    ensures 0 <= p.x * t.bpp / 8 < RowBytes(t)
    ensures t.w * t.bpp <= t.stride * 8 ==> RowBytes(t) <= t.stride
  {
  }

  lemma InRegion(t: Target, p: Point)
    requires Sound(t) && Inside(t, p)
    ensures AddressOf(t, p) == t.addr + Offset(t, p) && Mapped(AddressOf(t, p), t.hasPsram)
  {
    BitsInRow(t, p);
    assert 0 <= p.y * t.stride <= (t.h - 1) * t.stride by {
      MulMono(p.y, t.h - 1, t.stride);
    }
  }

  /** In a sound target different pixels are kept in different places. */
  lemma PixelsApart(t: Target, p: Point, q: Point)
    requires Sound(t) && Inside(t, p) && Inside(t, q)
    requires AddressOf(t, p) == AddressOf(t, q) && PlaceOf(t, p) == PlaceOf(t, q)
    ensures p == q
  {
    InRegion(t, p);
    InRegion(t, q);
    BitsInRow(t, p);
    BitsInRow(t, q);
    if p.y < q.y {
      RowsApart(t, p, q);
    } else if q.y < p.y {
      RowsApart(t, q, p);
    }
  }

  lemma RowsApart(t: Target, p: Point, q: Point)
    requires Sound(t) && Inside(t, p) && Inside(t, q) && p.y < q.y
    ensures Offset(t, p) < Offset(t, q)
  {
    BitsInRow(t, p);
    BitsInRow(t, q);
    MulMono(p.y + 1, q.y, t.stride);
    assert (p.y + 1) * t.stride == p.y * t.stride + t.stride;
  }

  /** Drawing sets the painted pixels to the colour modulo 2^bpp and leaves every other pixel of
      the target as it was. */
  lemma PaintedPixel(before: Memory, after: Memory, t: Target, points: iset<Point>, color: bv8, p: Point)
    requires Sound(t) && Painted(before, after, t, points, color) && Inside(t, p)
    ensures Pixel(after, t, p) == if p in points then color & LowBits(t.bpp) else Pixel(before, t, p)
  {
    PlaceIsPlace(t, p);
    InRegion(t, p);
    var a, s := AddressOf(t, p), PlaceOf(t, p);
    assert KeptAt(t, p, a, s) && PaintedAt(before, after, t, points, color, a, s);
    if Hit(t, points, a, s) {
      var q :| q in points && KeptAt(t, q, a, s);
      PixelsApart(t, p, q);
    }
  }

  /** A byte that keeps no painted pixel is not changed, wherever it is. */
  lemma UntouchedByte(before: Memory, after: Memory, t: Target, points: iset<Point>, color: bv8, a: nat)
    requires IsDepth(t.bpp) && Painted(before, after, t, points, color) && a < ADDRESS_SPACE
    requires forall p :: p in points && Inside(t, p) ==> AddressOf(t, p) != a
    ensures after[a] == before[a]
  {
    forall s: nat | s < 8 && IsPlace(t.bpp, s)
      ensures SameField(after[a], before[a], t.bpp, s)
    {
      assert PaintedAt(before, after, t, points, color, a, s) && !Hit(t, points, a, s);
    }
    FieldsAreTheByte(after[a], before[a], t.bpp);
  }
}
